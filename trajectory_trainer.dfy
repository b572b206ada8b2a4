/**
 * The trajectory trainer of flare/gp_from_aimd.py: it walks the frames of an ab
 * initio trajectory, asks the model how uncertain and how wrong it is on each frame,
 * adds the flagged atoms to the model's training set, and decides when to retrain
 * and when to write the model out.
 *
 * The uncertainty and force checks, and the model's predictions, are parameters
 * (oracles): functions of the frame's position in the walk and of the model's
 * training set. Random sampling and set iteration order are arbitrary choices.
 */
module TrajectoryTrainer {
  import opened Wrappers
  import opened PyNum
  import opened Seqs
  import opened GaussianProcess
  import opened Selection

  /** A positive integer, as the frame stride `skip` must be. */
  type Positive = k: int | k >= 1 witness 1

  /** A frame of the trajectory, reduced to the coded species of its atoms. */
  datatype Frame = Frame(species: seq<Species>)

  datatype TrainerError =
    | NotImplementedForMapped  // `NotImplementedError`: seeding a mapped model
    | IndexError               // an atom or frame index out of range

  /** The answer of an uncertainty or force check: whether the frame is in bound, and the atoms to add. */
  datatype Verdict = Verdict(inBound: bool, atoms: seq<int>)

  /** The predicted uncertainty of one atom and its force error against the reference. */
  datatype Assessment = Assessment(std: real, error: real)

  /** An entry of the training plan: `(atom, uncertainty, force error)`. */
  datatype PlanEntry = PlanEntry(atom: int, std: real, error: real)

  /** A check of frame `i` against a model with training set `data`, with an atom cap. */
  type FlagOracle = (nat, seq<Species>, Bound) -> Verdict

  /** The prediction on atom `a` of frame `i` by a model with training set `data`. */
  type Predictor = (nat, seq<Species>, nat) -> Assessment

  /** `d.get(s, inf)` */
  function CapOf(d: map<Species, Bound>, s: Species): Bound {
    if s in d then d[s] else Infinite
  }

  /** Python's `a or b` on integers. */
  function PyOr(a: int, b: int): (r: int)
    ensures r != 0 <==> a != 0 || b != 0
    ensures a != 0 ==> r == a
  {
    if a != 0 then a else b
  }

  /** `[(a, uncertainties[a], force_errors[a]) for a in atoms]` */
  function PlanFor(i: nat, data: seq<Species>, atoms: seq<int>, n: nat, predict: Predictor): (r: seq<PlanEntry>)
    requires ValidIndices(atoms, n)
    ensures |r| == |atoms|
    ensures forall j :: 0 <= j < |atoms| ==> r[j].atom == atoms[j]
    ensures forall j :: 0 <= j < |atoms| ==>
              r[j].std == predict(i, data, PyIndex(atoms[j], n)).std
              && r[j].error == predict(i, data, PyIndex(atoms[j], n)).error
  {
    seq(|atoms|, j requires 0 <= j < |atoms| =>
      var p := predict(i, data, PyIndex(atoms[j], n));
      PlanEntry(atoms[j], p.std, p.error))
  }

  // ---------------------------------------------------------------------------
  // Choosing atoms of a frame, species by species

  /**
   * The number of atoms of species `s` that `pre_run` takes from a frame:
   * `len(shuffled_atoms_of_s[:min(n_at, per_species_cap, max_atoms_from_frame)])`.
   */
  function SeedCount(species: seq<Species>, s: Species, perSpecies: map<Species, Bound>,
                     maxAtomsFromFrame: Bound): nat
  {
    var n := Occurrences(species, s);
    PySliceLen(n, MinOf(n, [CapOf(perSpecies, s), maxAtomsFromFrame]))
  }

  /** The atoms are distinct positions of the frame, all of species in `done`. */
  predicate VisitedOnly(species: seq<Species>, atoms: seq<int>, done: set<Species>) {
    && Distinct(atoms)
    && (forall i :: 0 <= i < |atoms| ==> 0 <= atoms[i] < |species| && species[atoms[i]] in done)
    && ValidIndices(atoms, |species|)
  }

  /** Appending distinct atoms of a species not visited yet to a list of visited atoms. */
  lemma ExtendVisited(species: seq<Species>, atoms: seq<int>, chosen: seq<int>, s: Species, done: set<Species>)
    requires VisitedOnly(species, atoms, done) && s !in done
    requires IsSample(chosen, IndicesOf(species, s), |chosen|)
    ensures VisitedOnly(species, atoms + chosen, done + {s})
    ensures forall t :: CountIn(species, atoms + chosen, t) == CountIn(species, atoms, t) + (if t == s then |chosen| else 0)
  {
    IndicesOfSpec(species, s);
    assert forall i :: 0 <= i < |chosen| ==> 0 <= chosen[i] < |species| && species[chosen[i]] == s;
    DistinctConcat(atoms, chosen);
    forall t ensures CountIn(species, atoms + chosen, t) == CountIn(species, atoms, t) + (if t == s then |chosen| else 0) {
      CountInUniform(species, chosen, s, t);
      CountInAppend(species, atoms, chosen, t);
    }
    forall i | 0 <= i < |atoms + chosen|
      ensures 0 <= (atoms + chosen)[i] < |species| && species[(atoms + chosen)[i]] in done + {s}
    {
      if i >= |atoms| {
        assert (atoms + chosen)[i] == chosen[i - |atoms|];
      }
    }
  }

  /** In a list without repeats, the next element is not among those already visited. */
  lemma NextIsNew<T>(order: seq<T>, j: nat)
    requires Distinct(order) && j < |order|
    ensures order[j] !in Elems(order[..j])
    ensures Elems(order[..j + 1]) == Elems(order[..j]) + {order[j]}
  {
    assert order[..j + 1] == order[..j] + [order[j]];
  }

  /** The seed atoms of the species visited so far (`done`), each species with its full count. */
  ghost predicate SeedSoFar(species: seq<Species>, atoms: seq<int>, done: set<Species>,
                            perSpecies: map<Species, Bound>, maxAtomsFromFrame: Bound)
  {
    && VisitedOnly(species, atoms, done)
    && forall t :: CountIn(species, atoms, t)
                   == if t in done then SeedCount(species, t, perSpecies, maxAtomsFromFrame) else 0
  }

  /** A species that does not occur in the frame has no atoms to offer. */
  lemma AbsentSpecies(species: seq<Species>, t: Species)
    requires t !in species
    ensures Occurrences(species, t) == 0
  {
  }

  /** The seed atoms `pre_run` takes from one frame: for every species, a random subset of its atoms. */
  method ChooseSeedAtoms(species: seq<Species>, perSpecies: map<Species, Bound>, maxAtomsFromFrame: Bound)
    returns (atoms: seq<int>)
    ensures forall i :: 0 <= i < |atoms| ==> 0 <= atoms[i] < |species|
    ensures SeedChoice(species, atoms, perSpecies, maxAtomsFromFrame)
  {
    ghost var enumeration := Enumeration(Elems(species));
    var order :| Distinct(order) && Elems(order) == Elems(species);
    atoms := [];
    ghost var done: set<Species> := {};
    var j := 0;
    while j < |order|
      invariant 0 <= j <= |order|
      invariant done == Elems(order[..j])
      invariant SeedSoFar(species, atoms, done, perSpecies, maxAtomsFromFrame)
    {
      NextIsNew(order, j);
      atoms := SeedTurn(species, order[j], atoms, done, perSpecies, maxAtomsFromFrame);
      done := done + {order[j]};
      j := j + 1;
    }
    assert order[..j] == order;
    forall t | t !in done
      ensures SeedCount(species, t, perSpecies, maxAtomsFromFrame) == 0
    {
      AbsentSpecies(species, t);
    }
  }

  /** The turn of species `s` in `ChooseSeedAtoms`: a random sample of its atoms, of the seeded size. */
  method SeedTurn(species: seq<Species>, s: Species, atoms: seq<int>, ghost done: set<Species>,
                  perSpecies: map<Species, Bound>, maxAtomsFromFrame: Bound)
    returns (atoms': seq<int>)
    requires SeedSoFar(species, atoms, done, perSpecies, maxAtomsFromFrame) && s !in done
    ensures SeedSoFar(species, atoms', done + {s}, perSpecies, maxAtomsFromFrame)
  {
    var candidates := IndicesOf(species, s);
    IndicesOfSpec(species, s);
    var n := |candidates|;
    var take := PySliceLen(n, MinOf(n, [CapOf(perSpecies, s), maxAtomsFromFrame]));
    SampleExists(candidates, take);
    var chosen :| IsSample(chosen, candidates, take);
    assert n == Occurrences(species, s);
    assert |chosen| == SeedCount(species, s, perSpecies, maxAtomsFromFrame);
    ExtendVisited(species, atoms, chosen, s, done);
    atoms' := atoms + chosen;
    forall t ensures CountIn(species, atoms', t)
                     == if t in done + {s} then SeedCount(species, t, perSpecies, maxAtomsFromFrame) else 0
    {
      assert CountIn(species, atoms', t) == CountIn(species, atoms, t) + (if t == s then |chosen| else 0);
    }
  }

  /** The atoms of one frame of passive learning: distinct indices, under the frame cap and each species' cap. */
  ghost predicate PassiveChoice(species: seq<Species>, atoms: seq<int>, perSpecies: map<Species, Bound>, frameCap: Bound)
  {
    && Distinct(atoms)
    && ValidIndices(atoms, |species|)
    && (atoms == [] || AtMost(|atoms|, frameCap))
    && forall t :: CountIn(species, atoms, t) == 0 || AtMost(CountIn(species, atoms, t), CapOf(perSpecies, t))
  }

  /** Every species admitted from the frame fits its per-frame cap and its element's model cap. */
  ghost predicate WithinCaps(species: seq<Species>, atoms: seq<int>, perSpecies: map<Species, Bound>,
                             elementCaps: map<Species, Bound>, held: multiset<Species>)
    requires ValidIndices(atoms, |species|)
  {
    forall t :: CountIn(species, atoms, t) == 0
                || (AtMost(CountIn(species, atoms, t), CapOf(perSpecies, t))
                    && AtMost(held[t] + CountIn(species, atoms, t), CapOf(elementCaps, t)))
  }

  /**
   * The atoms `run_passive_learning` samples from one frame. Species are visited in an
   * arbitrary order; each takes a random sample of the admitted size, where the frame
   * cap and the model budget are reduced by what the earlier species took.
   */
  method ChoosePassiveAtoms(species: seq<Species>, perSpecies: map<Species, Bound>, frameCap: Bound,
                            available: Bound, elementCaps: map<Species, Bound>, held: multiset<Species>)
    returns (atoms: seq<int>, availableLeft: Bound)
    ensures Distinct(atoms)
    ensures forall i :: 0 <= i < |atoms| ==> 0 <= atoms[i] < |species|
    ensures ValidIndices(atoms, |species|)
    ensures availableLeft == Minus(available, |atoms|)
    ensures atoms == [] || AtMost(|atoms|, frameCap)
    ensures atoms == [] || AtMost(|atoms|, available)
    ensures WithinCaps(species, atoms, perSpecies, elementCaps, held)
  {
    ghost var enumeration := Enumeration(Elems(species));
    var order :| Distinct(order) && Elems(order) == Elems(species);
    atoms := [];
    availableLeft := available;
    ghost var done: set<Species> := {};
    var j := 0;
    while j < |order|
      invariant 0 <= j <= |order|
      invariant done == Elems(order[..j])
      invariant availableLeft == Minus(available, |atoms|)
      invariant PassiveSoFar(species, atoms, done, perSpecies, frameCap, available, elementCaps, held)
    {
      NextIsNew(order, j);
      atoms, availableLeft := PassiveTurn(species, order[j], atoms, availableLeft, done,
                                          perSpecies, frameCap, available, elementCaps, held);
      done := done + {order[j]};
      j := j + 1;
    }
  }

  /** The turn of species `s` in `ChoosePassiveAtoms`: a random sample of its atoms, of the admitted size. */
  method PassiveTurn(species: seq<Species>, s: Species, atoms: seq<int>, availableLeft: Bound, ghost done: set<Species>,
                     perSpecies: map<Species, Bound>, frameCap: Bound, available: Bound,
                     elementCaps: map<Species, Bound>, held: multiset<Species>)
    returns (atoms': seq<int>, availableLeft': Bound)
    requires PassiveSoFar(species, atoms, done, perSpecies, frameCap, available, elementCaps, held) && s !in done
    requires availableLeft == Minus(available, |atoms|)
    ensures PassiveSoFar(species, atoms', done + {s}, perSpecies, frameCap, available, elementCaps, held)
    ensures availableLeft' == Minus(available, |atoms'|)
  {
    var candidates := IndicesOf(species, s);
    IndicesOfSpec(species, s);
    var caps := PassiveCaps(CapOf(perSpecies, s), frameCap, availableLeft, |atoms|,
                            CapOf(elementCaps, s), held[s]);
    var nAdd := AdmitCount(|candidates|, caps);
    SampleExists(candidates, nAdd);
    var chosen :| IsSample(chosen, candidates, nAdd);
    PassiveStep(species, atoms, chosen, s, done, caps, perSpecies, frameCap, available, elementCaps, held);
    atoms' := atoms + chosen;
    availableLeft' := Minus(availableLeft, nAdd);
  }

  /** What the species visited so far (`done`) contributed to the passive choice of one frame. */
  ghost predicate PassiveSoFar(species: seq<Species>, atoms: seq<int>, done: set<Species>,
                               perSpecies: map<Species, Bound>, frameCap: Bound, available: Bound,
                               elementCaps: map<Species, Bound>, held: multiset<Species>)
  {
    && VisitedOnly(species, atoms, done)
    && (forall t :: t !in done ==> CountIn(species, atoms, t) == 0)
    && (atoms == [] || AtMost(|atoms|, frameCap))
    && (atoms == [] || AtMost(|atoms|, available))
    && WithinCaps(species, atoms, perSpecies, elementCaps, held)
  }

  /** One species' turn of `ChoosePassiveAtoms` keeps its loop invariant. */
  lemma PassiveStep(species: seq<Species>, atoms: seq<int>, chosen: seq<int>, s: Species, done: set<Species>,
                    caps: seq<Bound>, perSpecies: map<Species, Bound>, frameCap: Bound, available: Bound,
                    elementCaps: map<Species, Bound>, held: multiset<Species>)
    requires PassiveSoFar(species, atoms, done, perSpecies, frameCap, available, elementCaps, held) && s !in done
    requires caps == PassiveCaps(CapOf(perSpecies, s), frameCap, Minus(available, |atoms|), |atoms|,
                                 CapOf(elementCaps, s), held[s])
    requires IsSample(chosen, IndicesOf(species, s), AdmitCount(|IndicesOf(species, s)|, caps))
    ensures PassiveSoFar(species, atoms + chosen, done + {s}, perSpecies, frameCap, available, elementCaps, held)
  {
    ExtendVisited(species, atoms, chosen, s, done);
    if |chosen| > 0 {
      assert Admissible(|chosen|, |IndicesOf(species, s)|, caps);
      assert AtMost(|chosen|, caps[0]) && AtMost(|chosen|, caps[1]);
      assert AtMost(|chosen|, caps[2]) && AtMost(|chosen|, caps[3]);
    }
    forall t ensures CountIn(species, atoms + chosen, t) == 0
                     || (AtMost(CountIn(species, atoms + chosen, t), CapOf(perSpecies, t))
                         && AtMost(held[t] + CountIn(species, atoms + chosen, t), CapOf(elementCaps, t)))
    {
      if t == s {
        assert CountIn(species, atoms, t) == 0;
      }
    }
  }

  // ---------------------------------------------------------------------------
  // Pre-run seeding

  /** `atoms` are distinct indices of the frame holding, for every species, as many atoms as `pre_run` takes. */
  ghost predicate SeedChoice(species: seq<Species>, atoms: seq<int>, perSpecies: map<Species, Bound>,
                             maxAtomsFromFrame: Bound)
  {
    && Distinct(atoms)
    && ValidIndices(atoms, |species|)
    && forall t :: CountIn(species, atoms, t) == SeedCount(species, t, perSpecies, maxAtomsFromFrame)
  }

  /** Every seed frame's atoms are a seed choice of that frame. */
  ghost predicate SeededBy(frames: seq<Frame>, seeded: seq<seq<int>>, perSpecies: map<Species, Bound>,
                           maxAtomsFromFrame: Bound)
  {
    && |seeded| == |frames|
    && forall j :: 0 <= j < |frames| ==> SeedChoice(frames[j].species, seeded[j], perSpecies, maxAtomsFromFrame)
  }

  /** Every passive frame's atoms are a passive choice of that frame. */
  ghost predicate PassivePicked(frames: seq<Frame>, picked: seq<seq<int>>, perSpecies: map<Species, Bound>,
                                frameCap: Bound)
  {
    && |picked| == |frames|
    && forall j :: 0 <= j < |frames| ==> PassiveChoice(frames[j].species, picked[j], perSpecies, frameCap)
  }

  /** One list of atoms per frame, each a list of valid indices of its frame. */
  predicate Indexed(frames: seq<Frame>, picked: seq<seq<int>>) {
    |picked| == |frames| && forall j :: 0 <= j < |frames| ==> ValidIndices(picked[j], |frames[j].species|)
  }

  /** The species of the environments taken from the frames, frame by frame. */
  function GatherFrames(frames: seq<Frame>, picked: seq<seq<int>>): (r: seq<Species>)
    requires Indexed(frames, picked)
  {
    if frames == [] then []
    else
      var k := |frames| - 1;
      GatherFrames(frames[..k], picked[..k]) + Gather(frames[k].species, picked[k])
  }

  /** `pre_run` trains the model when it has seeds and pre-training or any training is allowed. */
  predicate PreTrainDue(seedEnvs: nat, atomCount: nat, seedFrames: nat, preTrainMaxIter: Option<int>, maxTrains: Bound) {
    (seedEnvs != 0 || atomCount != 0 || seedFrames != 0)
    && ((preTrainMaxIter.Some? && preTrainMaxIter.value != 0) || Truthy(maxTrains))
  }

  /** `{elt: 1 for elt in frame.species_labels}`: one environment of every species of the frame. */
  function OnePerSpecies(species: seq<Species>): (r: map<Species, Bound>)
    ensures forall t :: t in r <==> t in species
    ensures forall t :: t in r ==> r[t] == Finite(1)
  {
    map t | t in Elems(species) :: Finite(1)
  }

  /** The atoms of a plan entry list are valid indices of a frame of `n` atoms. */
  predicate PlanWellFormed(entries: seq<PlanEntry>, n: nat) {
    forall k :: 0 <= k < |entries| ==> -(n as int) <= entries[k].atom < n
  }

  /** Every planned frame lies before `trainFrame` and its entries are well formed. */
  predicate PlanWithin(plan: map<nat, seq<PlanEntry>>, frameList: seq<Frame>, trainFrame: int) {
    forall j :: j in plan ==> j < |frameList| && j < trainFrame && PlanWellFormed(plan[j], |frameList[j].species|)
  }

  /** The atoms of a plan entry list of `run` are distinct and none is the `-1` placeholder. */
  predicate PlanFlagged(entries: seq<PlanEntry>) {
    && (forall k :: 0 <= k < |entries| ==> entries[k].atom != -1)
    && (forall k, l :: 0 <= k < l < |entries| ==> entries[k].atom != entries[l].atom)
  }

  // ---------------------------------------------------------------------------
  // What the loops ask of the model, frame by frame

  /** `add_one_env` for `n` environments, one after the other. */
  function EnvEvents(n: nat): (r: seq<Event>)
    ensures |r| == n && forall e :: e in r ==> e == Added(1, false, false)
  {
    if n == 0 then [] else EnvEvents(n - 1) + [Added(1, false, false)]
  }

  /** `pre_run` trains with `pre_train_max_iter` when training is due, else only factorises. */
  function PreTrainEvent(due: bool, maxIter: Option<int>): Event {
    if due && maxIter != Some(0) then Trained(maxIter) else Factorized
  }

  /** `update_db` once per frame that contributed atoms, with that frame's count. */
  function AddedEvents(picked: seq<seq<int>>, withEnergy: bool): (r: seq<Event>)
    ensures forall e :: e in r ==> e.Added? && e.count > 0
  {
    if picked == [] then []
    else
      var last := picked[|picked| - 1];
      AddedEvents(picked[..|picked| - 1], withEnergy) + (if last == [] then [] else [Added(|last|, withEnergy, false)])
  }

  lemma AddedEventsAppend(picked: seq<seq<int>>, atoms: seq<int>, withEnergy: bool)
    ensures AddedEvents(picked + [atoms], withEnergy)
            == AddedEvents(picked, withEnergy) + (if atoms == [] then [] else [Added(|atoms|, withEnergy, false)])
  {
    assert (picked + [atoms])[..|picked|] == picked;
  }

  /**
   * The calls on the model for one flagged frame of `run` whose `added` atoms were
   * merged: `update_db` (nothing for an empty list or a mapped model), `train` or
   * `update_L_alpha` as the counters decide, and the checkpoint when one is due.
   */
  function RunFrameEvents(added: nat, withEnergy: bool, mapped: bool, out: RunOutcome,
                          modelFormat: string, outputName: string): seq<Event>
  {
    (if mapped || added == 0 then [] else [Added(added, withEnergy, false)])
    + (if out.action == Refresh then [Refreshed] else if mapped then [] else [Trained(None)])
    + (if modelFormat != "" && out.write then [Written(outputName + "_checkpt")] else [])
  }

  /**
   * The calls on the model for one flagged frame of `run_active_learning`: the atoms
   * added when they fit (else the `_saturated` model written), `train` or
   * `update_L_alpha`, and `write_model_decision`'s factorise-and-write.
   */
  function ActiveFrameEvents(added: nat, withEnergy: bool, out: ActiveOutcome,
                             modelFormat: string, outputName: string): seq<Event>
  {
    (if !out.fits then (if modelFormat != "" then [Written(outputName + "_saturated")] else [])
     else if added == 0 then [] else [Added(added, withEnergy, false)])
    + [if out.action == FullTrain then Trained(None) else Refreshed]
    + (if modelFormat != "" && out.write then [Factorized, Written(outputName + "_checkpt")] else [])
  }

  /** Sequences of three short parts, as the event lists above are built. */
  lemma CountsOfThree(a: seq<Event>, b: seq<Event>, c: seq<Event>)
    ensures Trainings(a + b + c) == Trainings(a) + Trainings(b) + Trainings(c)
    ensures Writes(a + b + c) == Writes(a) + Writes(b) + Writes(c)
  {
    TrainingsAppend(a, b);
    TrainingsAppend(a + b, c);
    WritesAppend(a, b);
    WritesAppend(a + b, c);
  }

  /** Membership in a list built from three parts. */
  lemma MemberOfThree(a: seq<Event>, b: seq<Event>, c: seq<Event>, e: Event)
    ensures e in a + b + c <==> e in a || e in b || e in c
  {
  }

  /** The counts of a list of at most one event. */
  lemma CountsOfOne(ev: seq<Event>)
    requires |ev| <= 1
    ensures Trainings(ev) == (if ev != [] && ev[0].Trained? then 1 else 0)
    ensures Writes(ev) == (if ev != [] && ev[0].Written? then 1 else 0)
  {
    if ev != [] {
      CountsStep([], ev[0]);
      assert [] + [ev[0]] == ev;
    }
  }

  /** The three parts of a flagged frame of `run`, as `RunFrameEvents` joins them. */
  function RunAddPart(added: nat, withEnergy: bool, mapped: bool): seq<Event> {
    if mapped || added == 0 then [] else [Added(added, withEnergy, false)]
  }

  function RunTrainPart(mapped: bool, out: RunOutcome): seq<Event> {
    if out.action == Refresh then [Refreshed] else if mapped then [] else [Trained(None)]
  }

  function RunWritePart(out: RunOutcome, modelFormat: string, outputName: string): seq<Event> {
    if modelFormat != "" && out.write then [Written(outputName + "_checkpt")] else []
  }

  lemma RunFrameEventsParts(added: nat, withEnergy: bool, mapped: bool, out: RunOutcome,
                            modelFormat: string, outputName: string)
    ensures RunFrameEvents(added, withEnergy, mapped, out, modelFormat, outputName)
            == RunAddPart(added, withEnergy, mapped) + RunTrainPart(mapped, out)
               + RunWritePart(out, modelFormat, outputName)
  {
  }

  lemma RunFrameEventsTrainings(added: nat, withEnergy: bool, mapped: bool, out: RunOutcome,
                                modelFormat: string, outputName: string)
    ensures Trainings(RunFrameEvents(added, withEnergy, mapped, out, modelFormat, outputName))
            == (if out.action == FullTrain && !mapped then 1 else 0)
  {
    var a, b, c := RunAddPart(added, withEnergy, mapped), RunTrainPart(mapped, out),
                   RunWritePart(out, modelFormat, outputName);
    RunFrameEventsParts(added, withEnergy, mapped, out, modelFormat, outputName);
    CountsOfThree(a, b, c);
    CountsOfOne(a);
    CountsOfOne(b);
    CountsOfOne(c);
  }

  lemma RunFrameEventsWrites(added: nat, withEnergy: bool, mapped: bool, out: RunOutcome,
                             modelFormat: string, outputName: string)
    ensures Writes(RunFrameEvents(added, withEnergy, mapped, out, modelFormat, outputName))
            == (if modelFormat != "" && out.write then 1 else 0)
  {
    var a, b, c := RunAddPart(added, withEnergy, mapped), RunTrainPart(mapped, out),
                   RunWritePart(out, modelFormat, outputName);
    RunFrameEventsParts(added, withEnergy, mapped, out, modelFormat, outputName);
    CountsOfThree(a, b, c);
    CountsOfOne(a);
    CountsOfOne(b);
    CountsOfOne(c);
  }

  lemma RunFrameEventsNames(added: nat, withEnergy: bool, mapped: bool, out: RunOutcome,
                            modelFormat: string, outputName: string)
    ensures var ev := RunFrameEvents(added, withEnergy, mapped, out, modelFormat, outputName);
            && Factorized !in ev
            && forall e :: e in ev && e.Written? ==> e.name == outputName + "_checkpt"
  {
    var a, b, c := RunAddPart(added, withEnergy, mapped), RunTrainPart(mapped, out),
                   RunWritePart(out, modelFormat, outputName);
    RunFrameEventsParts(added, withEnergy, mapped, out, modelFormat, outputName);
    forall e: Event | e in a + b + c
      ensures e != Factorized && (e.Written? ==> e.name == outputName + "_checkpt")
    {
      MemberOfThree(a, b, c, e);
    }
  }

  /**
   * A flagged frame of `run` trains the model exactly when the counters retrain an
   * unmapped model, writes at most the checkpoint, and never rebuilds the factorisation.
   */
  lemma RunFrameEventsCounts(added: nat, withEnergy: bool, mapped: bool, out: RunOutcome,
                             modelFormat: string, outputName: string)
    ensures var ev := RunFrameEvents(added, withEnergy, mapped, out, modelFormat, outputName);
            && Trainings(ev) == (if out.action == FullTrain && !mapped then 1 else 0)
            && Writes(ev) == (if modelFormat != "" && out.write then 1 else 0)
            && Factorized !in ev
            && forall e :: e in ev && e.Written? ==> e.name == outputName + "_checkpt"
  {
    RunFrameEventsTrainings(added, withEnergy, mapped, out, modelFormat, outputName);
    RunFrameEventsWrites(added, withEnergy, mapped, out, modelFormat, outputName);
    RunFrameEventsNames(added, withEnergy, mapped, out, modelFormat, outputName);
  }

  /** The three parts of a flagged frame of `run_active_learning`, as `ActiveFrameEvents` joins them. */
  function ActiveAddPart(added: nat, withEnergy: bool, out: ActiveOutcome, modelFormat: string,
                         outputName: string): seq<Event>
  {
    if !out.fits then (if modelFormat != "" then [Written(outputName + "_saturated")] else [])
    else if added == 0 then [] else [Added(added, withEnergy, false)]
  }

  function ActiveTrainPart(out: ActiveOutcome): seq<Event> {
    [if out.action == FullTrain then Trained(None) else Refreshed]
  }

  function ActiveWritePart(out: ActiveOutcome, modelFormat: string, outputName: string): seq<Event> {
    if modelFormat != "" && out.write then [Factorized, Written(outputName + "_checkpt")] else []
  }

  lemma ActiveFrameEventsParts(added: nat, withEnergy: bool, out: ActiveOutcome,
                               modelFormat: string, outputName: string)
    ensures ActiveFrameEvents(added, withEnergy, out, modelFormat, outputName)
            == ActiveAddPart(added, withEnergy, out, modelFormat, outputName) + ActiveTrainPart(out)
               + ActiveWritePart(out, modelFormat, outputName)
  {
  }

  /** The checkpoint part rebuilds the factorisation and writes once, and trains nothing. */
  lemma ActiveWritePartCounts(out: ActiveOutcome, modelFormat: string, outputName: string)
    ensures var c := ActiveWritePart(out, modelFormat, outputName);
            Trainings(c) == 0 && Writes(c) == (if modelFormat != "" && out.write then 1 else 0)
  {
    if modelFormat != "" && out.write {
      var f, w := [Factorized], [Written(outputName + "_checkpt")];
      CountsOfOne(f);
      CountsOfOne(w);
      WritesAppend(f, w);
      TrainingsAppend(f, w);
      assert ActiveWritePart(out, modelFormat, outputName) == f + w;
    }
  }

  lemma ActiveFrameEventsTrainings(added: nat, withEnergy: bool, out: ActiveOutcome,
                                   modelFormat: string, outputName: string)
    ensures Trainings(ActiveFrameEvents(added, withEnergy, out, modelFormat, outputName))
            == (if out.action == FullTrain then 1 else 0)
  {
    var a, b, c := ActiveAddPart(added, withEnergy, out, modelFormat, outputName), ActiveTrainPart(out),
                   ActiveWritePart(out, modelFormat, outputName);
    ActiveFrameEventsParts(added, withEnergy, out, modelFormat, outputName);
    CountsOfThree(a, b, c);
    CountsOfOne(a);
    CountsOfOne(b);
    ActiveWritePartCounts(out, modelFormat, outputName);
  }

  lemma ActiveFrameEventsWrites(added: nat, withEnergy: bool, out: ActiveOutcome,
                                modelFormat: string, outputName: string)
    ensures Writes(ActiveFrameEvents(added, withEnergy, out, modelFormat, outputName))
            == (if modelFormat != "" && !out.fits then 1 else 0) + (if modelFormat != "" && out.write then 1 else 0)
  {
    var a, b, c := ActiveAddPart(added, withEnergy, out, modelFormat, outputName), ActiveTrainPart(out),
                   ActiveWritePart(out, modelFormat, outputName);
    ActiveFrameEventsParts(added, withEnergy, out, modelFormat, outputName);
    CountsOfThree(a, b, c);
    CountsOfOne(a);
    CountsOfOne(b);
    ActiveWritePartCounts(out, modelFormat, outputName);
  }

  lemma ActiveFrameEventsNames(added: nat, withEnergy: bool, out: ActiveOutcome,
                               modelFormat: string, outputName: string)
    ensures forall e :: e in ActiveFrameEvents(added, withEnergy, out, modelFormat, outputName) && e.Written? ==>
              e.name == outputName + "_saturated" || e.name == outputName + "_checkpt"
  {
    var a, b, c := ActiveAddPart(added, withEnergy, out, modelFormat, outputName), ActiveTrainPart(out),
                   ActiveWritePart(out, modelFormat, outputName);
    ActiveFrameEventsParts(added, withEnergy, out, modelFormat, outputName);
    forall e: Event | e in a + b + c && e.Written?
      ensures e.name == outputName + "_saturated" || e.name == outputName + "_checkpt"
    {
      MemberOfThree(a, b, c, e);
    }
  }

  /**
   * A flagged frame of `run_active_learning` that reaches the model trains it exactly
   * when the retrain test holds, and writes only the `_saturated` model and the checkpoint.
   */
  lemma ActiveFrameEventsCounts(added: nat, withEnergy: bool, out: ActiveOutcome,
                                modelFormat: string, outputName: string)
    ensures var ev := ActiveFrameEvents(added, withEnergy, out, modelFormat, outputName);
            && Trainings(ev) == (if out.action == FullTrain then 1 else 0)
            && Writes(ev) == (if modelFormat != "" && !out.fits then 1 else 0)
                             + (if modelFormat != "" && out.write then 1 else 0)
            && forall e :: e in ev && e.Written? ==>
                 e.name == outputName + "_saturated" || e.name == outputName + "_checkpt"
  {
    ActiveFrameEventsTrainings(added, withEnergy, out, modelFormat, outputName);
    ActiveFrameEventsWrites(added, withEnergy, out, modelFormat, outputName);
    ActiveFrameEventsNames(added, withEnergy, out, modelFormat, outputName);
  }

  // ---------------------------------------------------------------------------
  // The trainer

  class Trainer {
    const gp: Gp
    const mapped: bool                                // the model is a mapped GP
    const skip: Positive
    const validateRatio: real
    const maxTrains: Bound
    const maxAtomsFromFrame: Bound
    const minAtomsPerTrain: int
    const preTrainOnSkips: int
    const preTrainMaxIter: Option<int>
    const preTrainEnvPerSpecies: map<Species, Bound>
    const trainCheckpointInterval: int
    const atomCheckpointInterval: int
    const modelFormat: string                         // empty: never write the model
    const outputName: string
    const includeEnergies: bool
    const seedEnvs: seq<Species>
    var frames: seq<Frame>
    var seedFrames: seq<Frame>
    var trainCount: nat

    /**
     * Stores the settings. The frames are kept in their order, or in an arbitrary
     * order when they are to be shuffled.
     */
    constructor (frames: seq<Frame>, gp: Gp, mapped: bool, skip: int, validateRatio: real,
                 maxTrains: Bound, maxAtomsFromFrame: Bound, minAtomsPerTrain: int, shuffleFrames: bool,
                 preTrainOnSkips: int, preTrainMaxIter: Option<int>, seedFrames: seq<Frame>,
                 seedEnvs: seq<Species>, preTrainEnvPerSpecies: map<Species, Bound>,
                 trainCheckpointInterval: int, checkpointInterval: int, atomCheckpointInterval: int,
                 modelFormat: string, outputName: string, includeEnergies: bool)
      requires skip >= 1
      requires 0.0 <= validateRatio <= 1.0
      ensures this.gp == gp && this.mapped == mapped && this.skip == skip
      ensures this.validateRatio == validateRatio && this.maxTrains == maxTrains
      ensures this.maxAtomsFromFrame == maxAtomsFromFrame && this.minAtomsPerTrain == minAtomsPerTrain
      ensures this.preTrainOnSkips == preTrainOnSkips && this.preTrainMaxIter == preTrainMaxIter
      ensures this.preTrainEnvPerSpecies == preTrainEnvPerSpecies && this.seedEnvs == seedEnvs
      ensures this.trainCheckpointInterval == PyOr(trainCheckpointInterval, checkpointInterval)
      ensures this.atomCheckpointInterval == atomCheckpointInterval
      ensures this.modelFormat == modelFormat && this.outputName == outputName
      ensures this.includeEnergies == includeEnergies
      ensures !shuffleFrames ==> this.frames == frames
      ensures multiset(this.frames) == multiset(frames)
      ensures this.seedFrames == seedFrames && trainCount == 0
    {
      this.gp := gp;
      this.mapped := mapped;
      this.skip := skip;
      this.validateRatio := validateRatio;
      this.maxTrains := maxTrains;
      this.maxAtomsFromFrame := maxAtomsFromFrame;
      this.minAtomsPerTrain := minAtomsPerTrain;
      this.preTrainOnSkips := preTrainOnSkips;
      this.preTrainMaxIter := preTrainMaxIter;
      this.preTrainEnvPerSpecies := preTrainEnvPerSpecies;
      this.seedEnvs := seedEnvs;
      this.trainCheckpointInterval := PyOr(trainCheckpointInterval, checkpointInterval);
      this.atomCheckpointInterval := atomCheckpointInterval;
      this.modelFormat := modelFormat;
      this.outputName := outputName;
      this.includeEnergies := includeEnergies;
      if shuffleFrames {
        assert multiset(frames) == multiset(frames);
        var shuffled :| multiset(shuffled) == multiset(frames);
        this.frames := shuffled;
      } else {
        this.frames := frames;
      }
      this.seedFrames := seedFrames;
      trainCount := 0;
    }

    /**
     * `train_gp`: nothing for a mapped model; otherwise optimise the hyperparameters
     * (only rebuild the factorisation when `max_iter == 0`) and count the training.
     */
    method TrainGp(maxIter: Option<int>)
      modifies this, gp
      ensures frames == old(frames) && seedFrames == old(seedFrames)
      ensures gp.data == old(gp.data)
      ensures mapped ==> gp.log == old(gp.log) && trainCount == old(trainCount)
      ensures !mapped ==> trainCount == old(trainCount) + 1
      ensures !mapped ==> gp.log == old(gp.log) + [if maxIter == Some(0) then Factorized else Trained(maxIter)]
    {
      if mapped {
        return;
      }
      if maxIter == Some(0) {
        gp.CheckLAlpha();
      } else {
        gp.Train(maxIter);
      }
      trainCount := trainCount + 1;
    }

    /**
     * `update_gp_and_print`: add one environment per listed atom of the frame (a mapped
     * model is left alone), then train if asked. An atom that is not an index of the
     * frame raises `IndexError` before anything changes.
     */
    method UpdateGpAndPrint(frame: Frame, atoms: seq<int>, train: bool) returns (err: Option<TrainerError>)
      modifies this, gp
      ensures err.Some? <==> atoms != [] && !ValidIndices(atoms, |frame.species|)
      ensures err.Some? ==> err.value == IndexError
      ensures frames == old(frames) && seedFrames == old(seedFrames)
      ensures atoms == [] || err.Some? || mapped ==> gp.data == old(gp.data) && gp.log == old(gp.log)
      ensures atoms == [] || err.Some? || mapped || !train ==> trainCount == old(trainCount)
      ensures atoms != [] && err.None? && !mapped ==>
                gp.data == old(gp.data) + Gather(frame.species, atoms)
                && gp.log == old(gp.log) + [Added(|atoms|, includeEnergies, false)] + (if train then [Trained(None)] else [])
                && trainCount == old(trainCount) + (if train then 1 else 0)
    {
      err := None;
      if atoms == [] {
        return;
      }
      if !ValidIndices(atoms, |frame.species|) {
        return Some(IndexError);
      }
      if !mapped {
        gp.UpdateDb(frame.species, atoms, includeEnergies, false);
        if train {
          TrainGp(None);
        }
      }
    }

    /**
     * `write_model_decision`: decide whether a checkpoint is due and, when a model
     * format is set, rebuild the factorisation and write the checkpoint.
     */
    method WriteModelDecision(trainInterval: int, atomCounter: int, atomInterval: int, trainCounter: int)
      returns (written: bool)
      modifies gp
      ensures written == WillWrite(trainInterval, atomCounter, atomInterval, trainCounter)
      ensures gp.data == old(gp.data)
      ensures gp.log == old(gp.log) + (if modelFormat != "" && written
                                       then [Factorized, Written(outputName + "_checkpt")] else [])
    {
      written := false;
      if trainInterval != 0 && PyMod(trainCounter, trainInterval) == 0 {
        written := true;
      }
      if atomInterval != 0 && atomCounter != 0 && atomInterval <= atomCounter {
        written := true;
      }
      if modelFormat != "" && written {
        gp.CheckLAlpha();
        gp.WriteModel(outputName + "_checkpt");
      }
    }

    /**
     * The seed split of `pre_run`: frames at positions divisible by `pre_train_on_skips`
     * become the seed frames, the others stay for training.
     */
    method SplitOnSkips()
      requires preTrainOnSkips > 0
      modifies this
      ensures seedFrames == Strided(old(frames), preTrainOnSkips, true)
      ensures frames == Strided(old(frames), preTrainOnSkips, false)
      ensures multiset(seedFrames) + multiset(frames) == multiset(old(frames))
      ensures trainCount == old(trainCount)
    {
      var seeds: seq<Frame> := [];
      var rest: seq<Frame> := [];
      var i := 0;
      while i < |frames|
        invariant 0 <= i <= |frames|
        invariant seeds == Strided(frames[..i], preTrainOnSkips, true)
        invariant rest == Strided(frames[..i], preTrainOnSkips, false)
      {
        assert frames[..i + 1][..i] == frames[..i];
        if i % preTrainOnSkips == 0 {
          seeds := seeds + [frames[i]];
        } else {
          rest := rest + [frames[i]];
        }
        i := i + 1;
      }
      assert frames[..i] == frames;
      StridedPartition(frames, preTrainOnSkips);
      seedFrames := seeds;
      frames := rest;
    }
  
    /** One seed frame of `pre_run`: choose its seed atoms and add them to the model. */
    method SeedOneFrame(frame: Frame) returns (atoms: seq<int>)
      requires !mapped
      modifies this, gp
      ensures frames == old(frames) && seedFrames == old(seedFrames) && trainCount == old(trainCount)
      ensures SeedChoice(frame.species, atoms, preTrainEnvPerSpecies, maxAtomsFromFrame)
      ensures gp.data == old(gp.data) + Gather(frame.species, atoms)
      ensures gp.log == old(gp.log) + (if atoms == [] then [] else [Added(|atoms|, includeEnergies, false)])
    {
      atoms := ChooseSeedAtoms(frame.species, preTrainEnvPerSpecies, maxAtomsFromFrame);
      var e := UpdateGpAndPrint(frame, atoms, false);
      if atoms == [] {
        assert Gather(frame.species, atoms) == [];
      }
    }

    /** The seed-frame loop of `pre_run`: take `SeedCount` random atoms of every species of every seed frame. */
    method SeedFromFrames() returns (atomCount: nat, ghost seeded: seq<seq<int>>)
      requires !mapped
      modifies this, gp
      ensures frames == old(frames) && seedFrames == old(seedFrames) && trainCount == old(trainCount)
      ensures SeededBy(seedFrames, seeded, preTrainEnvPerSpecies, maxAtomsFromFrame)
      ensures atomCount == TotalLength(seeded)
      ensures gp.data == old(gp.data) + GatherFrames(seedFrames, seeded)
      ensures gp.log == old(gp.log) + AddedEvents(seeded, includeEnergies)
    {
      seeded := [];
      var seeds := seedFrames;
      atomCount := 0;
      ghost var added: seq<Species> := [];
      var k := 0;
      while k < |seeds|
        invariant 0 <= k <= |seeds|
        invariant frames == old(frames) && seedFrames == seeds && trainCount == old(trainCount)
        invariant SeededBy(seeds[..k], seeded, preTrainEnvPerSpecies, maxAtomsFromFrame)
        invariant atomCount == TotalLength(seeded)
        invariant gp.data == old(gp.data) + added
        invariant added == GatherFrames(seeds[..k], seeded)
        invariant gp.log == old(gp.log) + AddedEvents(seeded, includeEnergies)
      {
        var atoms := SeedOneFrame(seeds[k]);
        AppendAssoc(old(gp.data), added, Gather(seeds[k].species, atoms));
        AddedEventsAppend(seeded, atoms, includeEnergies);
        AppendAssoc(old(gp.log), AddedEvents(seeded, includeEnergies),
                    if atoms == [] then [] else [Added(|atoms|, includeEnergies, false)]);
        TotalLengthAppend(seeded, atoms);
        SeededByAppend(seeds, k, seeded, atoms, preTrainEnvPerSpecies, maxAtomsFromFrame);
        seeded := seeded + [atoms];
        added := added + Gather(seeds[k].species, atoms);
        atomCount := atomCount + |atoms|;
        k := k + 1;
      }
      assert seeds[..k] == seeds;
    }

    /** `for env in envs: gp.add_one_env(env, ...)` */
    method AddEnvironments(envs: seq<Species>)
      modifies gp
      ensures gp.data == old(gp.data) + envs
      ensures gp.log == old(gp.log) + EnvEvents(|envs|)
    {
      var j := 0;
      while j < |envs|
        invariant 0 <= j <= |envs|
        invariant gp.data == old(gp.data) + envs[..j]
        invariant gp.log == old(gp.log) + EnvEvents(j)
      {
        gp.AddOneEnv(envs[j]);
        assert envs[..j + 1] == envs[..j] + [envs[j]];
        j := j + 1;
      }
      assert envs[..j] == envs;
    }

    /**
     * One frame of `run_passive_learning`: with the model's statistics taken before the
     * frame, choose the atoms under the caps and add them to the model.
     */
    method PassiveFrame(frame: Frame, maxEltsPerFrame: map<Species, Bound>, maxAtomsPerFrame: Bound,
                        maxModelSize: Bound, maxModelElts: map<Species, Bound>) returns (atoms: seq<int>)
      requires !mapped
      modifies this, gp
      ensures frames == old(frames) && seedFrames == old(seedFrames) && trainCount == old(trainCount)
      ensures PassiveChoice(frame.species, atoms, maxEltsPerFrame, maxAtomsPerFrame)
      ensures WithinCaps(frame.species, atoms, maxEltsPerFrame, maxModelElts, multiset(old(gp.data)))
      ensures gp.data == old(gp.data) + Gather(frame.species, atoms)
      ensures gp.log == old(gp.log) + (if atoms == [] then [] else [Added(|atoms|, includeEnergies, false)])
      ensures |gp.data| == |old(gp.data)| || AtMost(|gp.data|, maxModelSize)
      ensures forall t :: gp.EnvsOf(t) == old(gp.EnvsOf(t)) || AtMost(gp.EnvsOf(t), CapOf(maxModelElts, t))
    {
      var held := multiset(gp.data);
      var available := Minus(maxModelSize, |gp.data|);
      var left;
      atoms, left := ChoosePassiveAtoms(frame.species, maxEltsPerFrame, maxAtomsPerFrame, available, maxModelElts, held);
      ghost var before := gp.data;
      var e := UpdateGpAndPrint(frame, atoms, false);
      if atoms == [] {
        assert Gather(frame.species, atoms) == [];
      }
      forall t ensures gp.EnvsOf(t) == held[t] || AtMost(gp.EnvsOf(t), CapOf(maxModelElts, t)) {
        CountInGather(frame.species, atoms, t);
        assert multiset(gp.data) == multiset(before) + multiset(Gather(frame.species, atoms));
      }
    }

    /** The frame loop of `run_passive_learning`. */
    method PassiveFrames(frameList: seq<Frame>, maxAtomsPerFrame: Bound, maxEltsPerFrame: map<Species, Bound>,
                         maxModelSize: Bound, maxModelElts: map<Species, Bound>)
      returns (ghost picked: seq<seq<int>>)
      requires !mapped
      modifies this, gp
      ensures frames == old(frames) && seedFrames == old(seedFrames) && trainCount == old(trainCount)
      ensures Indexed(frameList, picked)
      ensures forall j :: 0 <= j < |frameList| ==>
                PassiveChoice(frameList[j].species, picked[j], maxEltsPerFrame, maxAtomsPerFrame)
      ensures gp.data == old(gp.data) + GatherFrames(frameList, picked)
      ensures gp.log == old(gp.log) + AddedEvents(picked, includeEnergies)
      ensures |gp.data| == |old(gp.data)| || AtMost(|gp.data|, maxModelSize)
      ensures forall t :: gp.EnvsOf(t) == old(gp.EnvsOf(t)) || AtMost(gp.EnvsOf(t), CapOf(maxModelElts, t))
    {
      picked := [];
      ghost var added: seq<Species> := [];
      var k := 0;
      while k < |frameList|
        invariant 0 <= k <= |frameList|
        invariant frames == old(frames) && seedFrames == old(seedFrames) && trainCount == old(trainCount)
        invariant PassivePicked(frameList[..k], picked, maxEltsPerFrame, maxAtomsPerFrame)
        invariant gp.data == old(gp.data) + added
        invariant added == GatherFrames(frameList[..k], picked)
        invariant gp.log == old(gp.log) + AddedEvents(picked, includeEnergies)
        invariant |gp.data| == |old(gp.data)| || AtMost(|gp.data|, maxModelSize)
        invariant forall t :: gp.EnvsOf(t) == old(gp.EnvsOf(t)) || AtMost(gp.EnvsOf(t), CapOf(maxModelElts, t))
      {
        var atoms := PassiveFrame(frameList[k], maxEltsPerFrame, maxAtomsPerFrame, maxModelSize, maxModelElts);
        AppendAssoc(old(gp.data), added, Gather(frameList[k].species, atoms));
        PassivePickedAppend(frameList, k, picked, atoms, maxEltsPerFrame, maxAtomsPerFrame);
        AddedEventsAppend(picked, atoms, includeEnergies);
        AppendAssoc(old(gp.log), AddedEvents(picked, includeEnergies),
                    if atoms == [] then [] else [Added(|atoms|, includeEnergies, false)]);
        picked := picked + [atoms];
        added := added + Gather(frameList[k].species, atoms);
        k := k + 1;
      }
      assert frameList[..k] == frameList;
      assert Indexed(frameList, picked);
    }

    /**
     * `run_passive_learning`: add the given environments, then take atoms from every
     * frame under the per-frame, per-species, model-size and per-element caps; finally
     * train or factorise as asked.
     */
    method RunPassiveLearning(frameList: seq<Frame>, envs: seq<Species>, maxAtomsPerFrame: Bound,
                              postTrainingIterations: int, postBuildMatrices: bool,
                              maxEltsPerFrame: map<Species, Bound>, maxModelSize: Bound,
                              maxModelElts: map<Species, Bound>)
      returns (err: Option<TrainerError>, ghost picked: seq<seq<int>>)
      modifies this, gp
      ensures err.Some? <==> mapped
      ensures err.Some? ==> err.value == NotImplementedForMapped
      ensures frames == old(frames) && seedFrames == old(seedFrames)
      ensures mapped ==> gp.data == old(gp.data) && gp.log == old(gp.log) && trainCount == old(trainCount)
      ensures !mapped ==>
                && Indexed(frameList, picked)
                && (forall j :: 0 <= j < |frameList| ==>
                      PassiveChoice(frameList[j].species, picked[j], maxEltsPerFrame, maxAtomsPerFrame))
                && gp.data == old(gp.data) + envs + GatherFrames(frameList, picked)
                && (|gp.data| == |old(gp.data)| + |envs| || AtMost(|gp.data|, maxModelSize))
                && (forall t :: gp.EnvsOf(t) == multiset(old(gp.data) + envs)[t]
                                || AtMost(gp.EnvsOf(t), CapOf(maxModelElts, t)))
                && trainCount == old(trainCount) + (if postTrainingIterations != 0 then 1 else 0)
                && gp.log == old(gp.log) + EnvEvents(|envs|) + AddedEvents(picked, includeEnergies)
                             + (if postTrainingIterations != 0 then [Trained(Some(postTrainingIterations))]
                                else if postBuildMatrices then [Factorized] else [])
    {
      picked := [];
      if mapped {
        return Some(NotImplementedForMapped), picked;
      }
      err := None;
      AddEnvironments(envs);
      picked := PassiveFrames(frameList, maxAtomsPerFrame, maxEltsPerFrame, maxModelSize, maxModelElts);
      if postTrainingIterations != 0 {
        TrainGp(Some(postTrainingIterations));
      } else if postBuildMatrices {
        gp.CheckLAlpha();
      }
    }

    /**
     * One training frame of `run_active_learning`: evaluate the frame against the model;
     * when it is out of bound, record it in the plan, and (for a GP) add its atoms if
     * the model has room, retrain or refresh, and decide on a checkpoint.
     */
    method ActiveFrame(i: nat, frame: Frame, s: ActiveState, cfg: ActiveConfig, evaluate: FlagOracle,
                       predict: Predictor)
      returns (err: Option<TrainerError>, entry: Option<seq<PlanEntry>>, next: ActiveState, ghost ev: seq<Event>)
      modifies this, gp
      ensures frames == old(frames) && seedFrames == old(seedFrames)
      ensures entry.Some? ==> PlanWellFormed(entry.value, |frame.species|)
      ensures gp.log == old(gp.log) + ev && Trainings(ev) == trainCount - old(trainCount)
      ensures forall e :: e in ev && e.Written? ==>
                e.name == outputName + "_saturated" || e.name == outputName + "_checkpt"
      ensures var v := evaluate(i, old(gp.data), s.maxAtomsFromFrame);
              var n := |frame.species|;
              && (err.Some? <==> !v.inBound && !ValidIndices(v.atoms, n))
              && (err.Some? ==> err.value == IndexError)
              && (entry.Some? <==> !v.inBound && ValidIndices(v.atoms, n))
              && (entry.Some? ==> entry.value == PlanFor(i, old(gp.data), v.atoms, n, predict))
              && (entry.None? || mapped ==>
                    next == s && gp.data == old(gp.data) && gp.log == old(gp.log) && trainCount == old(trainCount))
              && (entry.Some? && !mapped ==>
                    var out := ActiveFrameStep(s, |old(gp.data)|, |v.atoms|, i, cfg);
                    && next == out.state
                    && gp.data == old(gp.data) + (if out.fits then Gather(frame.species, v.atoms) else [])
                    && gp.log == old(gp.log) + ActiveFrameEvents(|v.atoms|, includeEnergies, out, modelFormat, outputName)
                    && trainCount == old(trainCount) + (if out.action == FullTrain then 1 else 0))
    {
      err, entry, next, ev := None, None, s, [];
      var v := evaluate(i, gp.data, s.maxAtomsFromFrame);
      if v.inBound {
        return;
      }
      var n := |frame.species|;
      if !ValidIndices(v.atoms, n) {
        err := Some(IndexError);
        return;
      }
      entry := Some(PlanFor(i, gp.data, v.atoms, n, predict));
      if mapped {
        return;
      }
      var out := ActiveFrameStep(s, |gp.data|, |v.atoms|, i, cfg);
      ActiveFrameUpdate(frame, v.atoms, s, out, cfg);
      ev := ActiveFrameEvents(|v.atoms|, includeEnergies, out, modelFormat, outputName);
      ActiveFrameEventsCounts(|v.atoms|, includeEnergies, out, modelFormat, outputName);
      next := out.state;
    }

    /** The model's part of a flagged frame of `run_active_learning`, once the counters have decided. */
    method ActiveFrameUpdate(frame: Frame, atoms: seq<int>, s: ActiveState, out: ActiveOutcome, cfg: ActiveConfig)
      requires !mapped && ValidIndices(atoms, |frame.species|)
      requires out.write == WillWrite(cfg.writeTrainInterval, s.atomsSinceWrite + |atoms|,
                                      cfg.writeAtomInterval, out.state.trainCounter)
      modifies this, gp
      ensures frames == old(frames) && seedFrames == old(seedFrames)
      ensures gp.data == old(gp.data) + (if out.fits then Gather(frame.species, atoms) else [])
      ensures gp.log == old(gp.log) + ActiveFrameEvents(|atoms|, includeEnergies, out, modelFormat, outputName)
      ensures trainCount == old(trainCount) + (if out.action == FullTrain then 1 else 0)
    {
      ghost var a: seq<Event> := if !out.fits then (if modelFormat != "" then [Written(outputName + "_saturated")] else [])
                                 else if atoms == [] then [] else [Added(|atoms|, includeEnergies, false)];
      ghost var b: seq<Event> := [if out.action == FullTrain then Trained(None) else Refreshed];
      ghost var c: seq<Event> := if modelFormat != "" && out.write
                                 then [Factorized, Written(outputName + "_checkpt")] else [];
      if out.fits {
        var e := UpdateGpAndPrint(frame, atoms, false);
        if atoms == [] {
          assert Gather(frame.species, atoms) == [];
        }
      } else if modelFormat != "" {
        gp.WriteModel(outputName + "_saturated");
      }
      assert gp.log == old(gp.log) + a;
      if out.action == FullTrain {
        TrainGp(None);
      } else {
        gp.UpdateLAlpha();
      }
      assert gp.log == old(gp.log) + a + b;
      var written := WriteModelDecision(cfg.writeTrainInterval, s.atomsSinceWrite + |atoms|,
                                        cfg.writeAtomInterval, out.state.trainCounter);
      assert gp.log == old(gp.log) + a + b + c;
      assert ActiveFrameEvents(|atoms|, includeEnergies, out, modelFormat, outputName) == a + b + c;
      AppendAssoc(old(gp.log), a + b, c);
      AppendAssoc(old(gp.log), a, b);
    }

    /**
     * `run_active_learning`: seed an empty model with one atom of every species of the
     * first frame, then walk the frames, learning from the training frames only. The
     * caps `max_model_elts` and `max_elts_per_frame` act through `evaluate`.
     */
    method RunActiveLearning(frameList: seq<Frame>, minAtomsPerTrain: int, maxAtomsFromFrame: Bound,
                             maxTrains: Bound, maxModelSize: Bound, writeTrainInterval: int,
                             writeAtomInterval: int, validateRatio: real, postWrite: bool,
                             evaluate: FlagOracle, predict: Predictor)
      returns (err: Option<TrainerError>, plan: map<nat, seq<PlanEntry>>, ghost seededSize: nat,
               ghost seeding: seq<Event>, ghost events: seq<Event>)
      modifies this, gp
      ensures frames == old(frames) && seedFrames == old(seedFrames)
      ensures |old(gp.data)| == 0 && frameList == [] ==> err == Some(IndexError)
      ensures err == Some(NotImplementedForMapped) ==> mapped && |old(gp.data)| == 0
      ensures PlanWithin(plan, frameList, TrainFrame(|frameList|, validateRatio))
      ensures seededSize >= |old(gp.data)|
      ensures err.None? ==> |gp.data| >= seededSize
      ensures err.None? ==> |gp.data| == seededSize || AtMost(|gp.data|, maxModelSize)
      ensures gp.log == old(gp.log) + seeding + events
                        + (if err.None? && modelFormat != "" && postWrite && !mapped
                           then [Written(outputName + "_model")] else [])
      ensures |old(gp.data)| != 0 ==> seeding == []
      ensures forall e :: e in seeding ==> e.Added?
      ensures Trainings(events) == trainCount - old(trainCount)
      ensures forall e :: e in events && e.Written? ==>
                e.name == outputName + "_saturated" || e.name == outputName + "_checkpt"
    {
      plan := map[];
      seededSize := |gp.data|;
      seeding, events := [], [];
      if |gp.data| == 0 {
        if frameList == [] {
          return Some(IndexError), plan, seededSize, seeding, events;
        }
        var e;
        e, seeding := SeedActive(frameList[0]);
        if e.Some? {
          return e, plan, seededSize, seeding, events;
        }
        seededSize := |gp.data|;
      }
      var cfg := ActiveConfig(minAtomsPerTrain, maxTrains, TrainFrame(|frameList|, validateRatio),
                              writeTrainInterval, writeAtomInterval, maxModelSize);
      err, plan, events := ActiveFrames(frameList, cfg, maxAtomsFromFrame, evaluate, predict);
      if err.Some? {
        return;
      }
      if modelFormat != "" && postWrite && !mapped {
        gp.WriteModel(outputName + "_model");
      }
    }

    /**
     * The seeding of `run_active_learning`: passive learning on the first frame, one
     * environment of each of its species, without training.
     */
    method SeedActive(frame: Frame) returns (err: Option<TrainerError>, ghost seeding: seq<Event>)
      modifies this, gp
      ensures err.Some? <==> mapped
      ensures err.Some? ==> err.value == NotImplementedForMapped
      ensures frames == old(frames) && seedFrames == old(seedFrames) && trainCount == old(trainCount)
      ensures |gp.data| >= |old(gp.data)|
      ensures gp.log == old(gp.log) + seeding
      ensures forall e :: e in seeding ==> e.Added?
      ensures mapped ==> seeding == [] && gp.data == old(gp.data)
    {
      ghost var picked;
      err, picked := RunPassiveLearning([frame], [], Infinite, 0, false, map[], Infinite, OnePerSpecies(frame.species));
      seeding := if err.Some? then [] else AddedEvents(picked, includeEnergies);
      if err.None? {
        assert gp.log == old(gp.log) + EnvEvents(0) + seeding + [];
        assert EnvEvents(0) == [];
      }
    }

    /** The frame loop of `run_active_learning`, over the training frames. */
    method ActiveFrames(frameList: seq<Frame>, cfg: ActiveConfig, maxAtomsFromFrame: Bound,
                        evaluate: FlagOracle, predict: Predictor)
      returns (err: Option<TrainerError>, plan: map<nat, seq<PlanEntry>>, ghost events: seq<Event>)
      modifies this, gp
      ensures err.Some? ==> err.value == IndexError
      ensures frames == old(frames) && seedFrames == old(seedFrames)
      ensures PlanWithin(plan, frameList, cfg.trainFrame)
      ensures |gp.data| >= |old(gp.data)|
      ensures |gp.data| == |old(gp.data)| || AtMost(|gp.data|, cfg.maxModelSize)
      ensures gp.log == old(gp.log) + events && Trainings(events) == trainCount - old(trainCount)
      ensures forall e :: e in events && e.Written? ==>
                e.name == outputName + "_saturated" || e.name == outputName + "_checkpt"
    {
      err, plan, events := None, map[], [];
      var state := ActiveState(0, 0, 0, maxAtomsFromFrame);
      var i := 0;
      while i < |frameList|
        invariant 0 <= i <= |frameList|
        invariant frames == old(frames) && seedFrames == old(seedFrames)
        invariant PlanWithin(plan, frameList, cfg.trainFrame)
        invariant forall j :: j in plan ==> j < i
        invariant |gp.data| >= |old(gp.data)|
        invariant |gp.data| == |old(gp.data)| || AtMost(|gp.data|, cfg.maxModelSize)
        invariant gp.log == old(gp.log) + events && Trainings(events) == trainCount - old(trainCount)
        invariant forall e :: e in events && e.Written? ==>
                    e.name == outputName + "_saturated" || e.name == outputName + "_checkpt"
      {
        if i < cfg.trainFrame {
          var e, entry, next, ev := ActiveFrame(i, frameList[i], state, cfg, evaluate, predict);
          if e.Some? {
            return e, plan, events;
          }
          AppendAssoc(old(gp.log), events, ev);
          TrainingsAppend(events, ev);
          events := events + ev;
          if entry.Some? {
            plan := plan[i := entry.value];
          }
          state := next;
        }
        i := i + 1;
      }
    }

    /**
     * One training frame of `run`: check uncertainty and force error; when either is out
     * of bound, merge the flagged atoms, record them in the plan, add them to the model,
     * retrain or refresh, and write a checkpoint when one is due.
     */
    method RunFrame(i: nat, frame: Frame, s: RunState, cfg: RunConfig, last: bool,
                    std: FlagOracle, force: FlagOracle, predict: Predictor)
      returns (err: Option<TrainerError>, entry: Option<seq<PlanEntry>>, next: RunState, ghost atoms: seq<int>,
               ghost ev: seq<Event>)
      requires s.trainCount == trainCount && cfg.mapped == mapped
      modifies this, gp
      ensures frames == old(frames) && seedFrames == old(seedFrames)
      ensures next.trainCount == trainCount && (mapped ==> trainCount == old(trainCount))
      ensures gp.log == old(gp.log) + ev && Trainings(ev) == trainCount - old(trainCount)
      ensures Factorized !in ev && forall e :: e in ev && e.Written? ==> e.name == outputName + "_checkpt"
      ensures entry.Some? ==> PlanWellFormed(entry.value, |frame.species|) && PlanFlagged(entry.value)
      ensures var sv := std(i, old(gp.data), maxAtomsFromFrame);
              var fv := force(i, old(gp.data), maxAtomsFromFrame);
              var n := |frame.species|;
              var flagged := !sv.inBound || !fv.inBound;
              && (flagged ==> Distinct(atoms) && Elems(atoms) == MergeFlags(sv.atoms, fv.atoms))
              && (err.Some? <==> flagged && !ValidIndices(atoms, n))
              && (err.Some? ==> err.value == IndexError)
              && (entry.Some? <==> flagged && ValidIndices(atoms, n))
              && (entry.Some? ==> entry.value == PlanFor(i, old(gp.data), atoms, n, predict))
              && (entry.None? ==>
                    next == s && gp.data == old(gp.data) && gp.log == old(gp.log) && trainCount == old(trainCount))
              && (entry.Some? ==>
                    next == RunFrameStep(s, |atoms|, last, cfg).state
                    && gp.data == old(gp.data) + (if mapped then [] else Gather(frame.species, atoms))
                    && ev == RunFrameEvents(|atoms|, includeEnergies, mapped, RunFrameStep(s, |atoms|, last, cfg),
                                            modelFormat, outputName))
    {
      err, entry, next, atoms, ev := None, None, s, [], [];
      var sv := std(i, gp.data, maxAtomsFromFrame);
      var fv := force(i, gp.data, maxAtomsFromFrame);
      if sv.inBound && fv.inBound {
        return;
      }
      var merged := MergeFlags(sv.atoms, fv.atoms);
      ghost var enumeration := Enumeration(merged);
      var list :| Distinct(list) && Elems(list) == merged;
      atoms := list;
      var n := |frame.species|;
      if !ValidIndices(list, n) {
        err := Some(IndexError);
        return;
      }
      forall k | 0 <= k < |list| ensures list[k] in merged {
        assert list[k] in Elems(list);
      }
      var entries := PlanFor(i, gp.data, list, n, predict);
      forall k, l | 0 <= k < l < |entries| ensures entries[k].atom != entries[l].atom {
        assert entries[k].atom == list[k] && entries[l].atom == list[l];
        assert Distinct(list);
        assert 0 <= k < l < |list|;
        assert list[k] != list[l];
      }
      entry := Some(entries);
      var out := RunFrameStep(s, |list|, last, cfg);
      RunFrameUpdate(frame, list, s, last, cfg);
      ev := RunFrameEvents(|list|, includeEnergies, mapped, out, modelFormat, outputName);
      RunFrameEventsCounts(|list|, includeEnergies, mapped, out, modelFormat, outputName);
      next := out.state;
    }

    /** One training frame of `run`, followed by the matrix check when it is the last training frame. */
    method RunTurn(i: nat, frame: Frame, s: RunState, cfg: RunConfig, last: bool, ghost startCount: int,
                   std: FlagOracle, force: FlagOracle, predict: Predictor)
      returns (err: Option<TrainerError>, entry: Option<seq<PlanEntry>>, next: RunState, ghost ev: seq<Event>)
      requires s.trainCount == trainCount && cfg.mapped == mapped && RunInvariant(s, cfg, startCount)
      modifies this, gp
      ensures frames == old(frames) && seedFrames == old(seedFrames)
      ensures next.trainCount == trainCount && (mapped ==> trainCount == old(trainCount))
      ensures err.Some? ==> err.value == IndexError
      ensures RunInvariant(next, cfg, startCount)
      ensures entry.Some? ==> PlanWellFormed(entry.value, |frame.species|) && PlanFlagged(entry.value)
      ensures gp.log == old(gp.log) + ev && Trainings(ev) == trainCount - old(trainCount)
      ensures forall e :: e in ev && e.Written? ==> e.name == outputName + "_checkpt"
      ensures Factorized in ev <==> err.None? && last && !mapped
      ensures Factorized in ev ==> ev[|ev| - 1] == Factorized
    {
      ghost var atoms;
      err, entry, next, atoms, ev := RunFrame(i, frame, s, cfg, last, std, force, predict);
      if err.Some? {
        return;
      }
      if entry.Some? {
        RunFrameStepKeepsInvariant(s, |atoms|, last, cfg, startCount);
      }
      if last && !mapped {
        gp.CheckLAlpha();
        AppendAssoc(old(gp.log), ev, [Factorized]);
        TrainingsAppend(ev, [Factorized]);
        ghost var before := ev;
        ev := ev + [Factorized];
        assert ev[|ev| - 1] == Factorized;
        assert forall e :: e in ev ==> e in before || e == Factorized;
      }
    }

    /** The model's part of a flagged frame of `run`: add the atoms, train or refresh, write a due checkpoint. */
    method RunFrameUpdate(frame: Frame, atoms: seq<int>, s: RunState, last: bool, cfg: RunConfig)
      requires ValidIndices(atoms, |frame.species|)
      requires s.trainCount == trainCount && cfg.mapped == mapped
      modifies this, gp
      ensures frames == old(frames) && seedFrames == old(seedFrames)
      ensures var out := RunFrameStep(s, |atoms|, last, cfg);
              && gp.data == old(gp.data) + (if mapped then [] else Gather(frame.species, atoms))
              && gp.log == old(gp.log) + RunFrameEvents(|atoms|, includeEnergies, mapped, out, modelFormat, outputName)
              && trainCount == out.state.trainCount
      ensures mapped ==> trainCount == old(trainCount)
    {
      var out := RunFrameStep(s, |atoms|, last, cfg);
      ghost var a: seq<Event> := if mapped || |atoms| == 0 then [] else [Added(|atoms|, includeEnergies, false)];
      ghost var b: seq<Event> := if out.action == Refresh then [Refreshed] else if mapped then [] else [Trained(None)];
      ghost var c: seq<Event> := if modelFormat != "" && out.write then [Written(outputName + "_checkpt")] else [];
      var e := UpdateGpAndPrint(frame, atoms, false);
      if atoms == [] {
        assert Gather(frame.species, atoms) == [];
      }
      assert gp.log == old(gp.log) + a;
      if out.action == FullTrain {
        TrainGp(None);
      } else {
        gp.UpdateLAlpha();
      }
      assert gp.log == old(gp.log) + a + b;
      if modelFormat != "" && out.write {
        gp.WriteModel(outputName + "_checkpt");
      }
      assert gp.log == old(gp.log) + a + b + c;
      assert RunFrameEvents(|atoms|, includeEnergies, mapped, out, modelFormat, outputName) == a + b + c;
      AppendAssoc(old(gp.log), a + b, c);
      AppendAssoc(old(gp.log), a, b);
    }

    /** The frame loop of `run`, over every `skip`-th frame. */
    method RunFrames(std: FlagOracle, force: FlagOracle, predict: Predictor)
      returns (err: Option<TrainerError>, plan: map<nat, seq<PlanEntry>>, ghost events: seq<Event>)
      modifies this, gp
      ensures err.Some? ==> err.value == IndexError
      ensures frames == old(frames) && seedFrames == old(seedFrames)
      ensures mapped ==> trainCount == old(trainCount)
      ensures PlanWithin(plan, Strided(frames, skip, true), TrainFrame(|Strided(frames, skip, true)|, validateRatio))
      ensures forall j :: j in plan ==> PlanFlagged(plan[j])
      ensures trainCount == old(trainCount) || AtMost(trainCount, maxTrains)
      ensures gp.log == old(gp.log) + events && Trainings(events) == trainCount - old(trainCount)
      ensures forall e :: e in events && e.Written? ==> e.name == outputName + "_checkpt"
      // the matrices are checked once, right after the last training frame
      ensures Factorized in events <==>
                err.None? && !mapped && 0 < TrainFrame(|Strided(frames, skip, true)|, validateRatio) <= |Strided(frames, skip, true)|
      ensures Factorized in events ==> events[|events| - 1] == Factorized
    {
      err, plan, events := None, map[], [];
      var walk := Strided(frames, skip, true);
      var trainFrame := TrainFrame(|walk|, validateRatio);
      var cfg := RunConfig(minAtomsPerTrain, maxTrains, trainCheckpointInterval, atomCheckpointInterval, mapped);
      var state := RunState(0, 0, 0, trainCount);
      RunInvariantInitially(trainCount, cfg);
      var i := 0;
      while i < |walk|
        invariant 0 <= i <= |walk|
        invariant frames == old(frames) && seedFrames == old(seedFrames)
        invariant walk == Strided(frames, skip, true)
        invariant state.trainCount == trainCount
        invariant mapped ==> trainCount == old(trainCount)
        invariant RunInvariant(state, cfg, old(trainCount))
        invariant PlanWithin(plan, walk, trainFrame)
        invariant forall j :: j in plan ==> j < i && PlanFlagged(plan[j])
        invariant gp.log == old(gp.log) + events && Trainings(events) == trainCount - old(trainCount)
        invariant forall e :: e in events && e.Written? ==> e.name == outputName + "_checkpt"
        invariant Factorized in events <==> !mapped && 0 < trainFrame <= i
        invariant Factorized in events ==> events[|events| - 1] == Factorized
      {
        if i < trainFrame {
          var e, entry, next, ev := RunTurn(i, walk[i], state, cfg, i + 1 == trainFrame, old(trainCount),
                                            std, force, predict);
          AppendAssoc(old(gp.log), events, ev);
          TrainingsAppend(events, ev);
          events := events + ev;
          if e.Some? {
            return e, plan, events;
          }
          if entry.Some? {
            plan := plan[i := entry.value];
          }
          state := next;
        }
        i := i + 1;
      }
    }

    /**
     * `run`: pre-run (for a GP), then walk every `skip`-th frame, learning from the
     * training frames; finally write the model.
     */
    method Run(std: FlagOracle, force: FlagOracle, predict: Predictor)
      returns (err: Option<TrainerError>, plan: map<nat, seq<PlanEntry>>, ghost pre: seq<Event>, ghost loop: seq<Event>)
      modifies this, gp
      ensures err.Some? ==> err.value == IndexError
      ensures mapped ==> frames == old(frames) && seedFrames == old(seedFrames) && trainCount == old(trainCount)
      ensures PlanWithin(plan, Strided(frames, skip, true), TrainFrame(|Strided(frames, skip, true)|, validateRatio))
      ensures forall j :: j in plan ==> PlanFlagged(plan[j])
      ensures trainCount <= old(trainCount) + 1 || AtMost(trainCount, maxTrains)
      // the log: the pre-run, the frames, and the final model last
      ensures gp.log == old(gp.log) + pre + loop
                        + (if err.None? && modelFormat != "" && !mapped then [Written(outputName + "_model")] else [])
      ensures mapped ==> pre == []
      ensures err.None? && !mapped && modelFormat != "" ==> |pre| > 0 && pre[|pre| - 1] == Written(outputName + "_prerun")
      ensures forall e :: e in loop && e.Written? ==> e.name == outputName + "_checkpt"
      ensures Factorized in loop <==>
                err.None? && !mapped && 0 < TrainFrame(|Strided(frames, skip, true)|, validateRatio) <= |Strided(frames, skip, true)|
      ensures Factorized in loop ==> loop[|loop| - 1] == Factorized
    {
      plan, pre, loop := map[], [], [];
      var e;
      e, pre := RunPreamble();
      if e.Some? {
        return e, plan, pre, loop;
      }
      err, plan, loop := RunFrames(std, force, predict);
      AppendAssoc(old(gp.log), pre, loop);
      if err.Some? {
        return;
      }
      if modelFormat != "" && !mapped {
        gp.WriteModel(outputName + "_model");
      }
    }

    /** The part of `run` before the frame loop: `pre_run`, for an unmapped model only. */
    method RunPreamble() returns (err: Option<TrainerError>, ghost pre: seq<Event>)
      modifies this, gp
      ensures err.Some? ==> err.value == IndexError && trainCount == old(trainCount)
      ensures gp.log == old(gp.log) + pre
      ensures mapped ==> pre == [] && frames == old(frames) && seedFrames == old(seedFrames)
                         && trainCount == old(trainCount)
      ensures trainCount <= old(trainCount) + 1
      ensures err.None? && !mapped && modelFormat != "" ==> |pre| > 0 && pre[|pre| - 1] == Written(outputName + "_prerun")
    {
      err, pre := None, [];
      if !mapped {
        ghost var seeded;
        err, seeded, pre := PreRun();
      }
    }

    /** `pre_run`: seed the model, train or factorise it, and write it out. */
    method PreRun() returns (err: Option<TrainerError>, ghost seeded: seq<seq<int>>, ghost ev: seq<Event>)
      modifies this, gp
      ensures gp.log == old(gp.log) + ev
      ensures err == Some(NotImplementedForMapped) <==> mapped
      ensures err == Some(IndexError) <==>
                !mapped && preTrainOnSkips <= 0 && |old(gp.data)| + |seedEnvs| == 0
                && old(seedFrames) == [] && old(frames) == []
      ensures err.Some? ==> trainCount == old(trainCount) && ev == []
      ensures mapped ==> gp.data == old(gp.data) && gp.log == old(gp.log)
                         && frames == old(frames) && seedFrames == old(seedFrames)
      ensures err.None? && preTrainOnSkips > 0 ==>
                seedFrames == Strided(old(frames), preTrainOnSkips, true)
                && frames == Strided(old(frames), preTrainOnSkips, false)
      ensures err.None? && preTrainOnSkips <= 0 && |old(gp.data)| + |seedEnvs| == 0 && old(seedFrames) == [] ==>
                old(frames) != [] && seedFrames == [old(frames)[0]] && frames == old(frames)[1..]
      ensures err.None? && preTrainOnSkips <= 0 && (|old(gp.data)| + |seedEnvs| != 0 || old(seedFrames) != []) ==>
                seedFrames == old(seedFrames) && frames == old(frames)
      ensures err.None? ==>
                && SeededBy(seedFrames, seeded, preTrainEnvPerSpecies, maxAtomsFromFrame)
                && gp.data == old(gp.data) + seedEnvs + GatherFrames(seedFrames, seeded)
                && trainCount == old(trainCount)
                   + (if PreTrainDue(|seedEnvs|, TotalLength(seeded), |seedFrames|, preTrainMaxIter, maxTrains)
                      then 1 else 0)
                && (modelFormat != "" ==> |ev| > 0 && ev[|ev| - 1] == Written(outputName + "_prerun"))
                && ev == EnvEvents(|seedEnvs|) + AddedEvents(seeded, includeEnergies)
                         + [PreTrainEvent(PreTrainDue(|seedEnvs|, TotalLength(seeded), |seedFrames|,
                                                      preTrainMaxIter, maxTrains), preTrainMaxIter)]
                         + (if modelFormat != "" then [Written(outputName + "_prerun")] else [])
    {
      seeded, ev := [], [];
      if mapped {
        return Some(NotImplementedForMapped), seeded, ev;
      }
      AddEnvironments(seedEnvs);
      if preTrainOnSkips > 0 {
        SplitOnSkips();
      } else if |gp.data| == 0 && |seedFrames| == 0 {
        if |frames| == 0 {
          return Some(IndexError), seeded, ev;
        }
        seedFrames := [frames[0]];
        frames := frames[1..];
      }
      err := None;
      ghost var envs := EnvEvents(|seedEnvs|);
      var atomCount;
      atomCount, seeded := SeedFromFrames();
      ghost var added := AddedEvents(seeded, includeEnergies);
      AppendAssoc(old(gp.log), envs, added);
      ghost var mid := gp.log;
      ghost var train := [PreTrainEvent(PreTrainDue(|seedEnvs|, atomCount, |seedFrames|, preTrainMaxIter, maxTrains),
                                        preTrainMaxIter)];
      ghost var write := if modelFormat != "" then [Written(outputName + "_prerun")] else [];
      PreTrain(atomCount);
      AppendAssoc(mid, train, write);
      AppendAssoc(old(gp.log), envs + added, train + write);
      AppendAssoc(envs + added, train, write);
      ev := envs + added + train + write;
    }

    /** The end of `pre_run`: train the seeded model (or only factorise it), then write it out. */
    method PreTrain(atomCount: nat)
      requires !mapped
      modifies this, gp
      ensures frames == old(frames) && seedFrames == old(seedFrames) && gp.data == old(gp.data)
      ensures var due := PreTrainDue(|seedEnvs|, atomCount, |seedFrames|, preTrainMaxIter, maxTrains);
              && trainCount == old(trainCount) + (if due then 1 else 0)
              && gp.log == old(gp.log) + [PreTrainEvent(due, preTrainMaxIter)]
                           + (if modelFormat != "" then [Written(outputName + "_prerun")] else [])
    {
      if PreTrainDue(|seedEnvs|, atomCount, |seedFrames|, preTrainMaxIter, maxTrains) {
        TrainGp(preTrainMaxIter);
      } else {
        gp.CheckLAlpha();
      }
      if modelFormat != "" {
        gp.WriteModel(outputName + "_prerun");
      }
    }
  }

  /** One more seed frame, with its atoms, extends the seeding facts and the gathered species. */
  lemma GatherFramesAppend(frames: seq<Frame>, k: nat, picked: seq<seq<int>>, atoms: seq<int>)
    requires k < |frames| && Indexed(frames[..k], picked)
    requires ValidIndices(atoms, |frames[k].species|)
    ensures Indexed(frames[..k + 1], picked + [atoms])
    ensures GatherFrames(frames[..k + 1], picked + [atoms])
            == GatherFrames(frames[..k], picked) + Gather(frames[k].species, atoms)
  {
    assert frames[..k + 1][..k] == frames[..k];
    assert (picked + [atoms])[..k] == picked;
  }

  lemma SeededByAppend(seeds: seq<Frame>, k: nat, seeded: seq<seq<int>>, atoms: seq<int>,
                       perSpecies: map<Species, Bound>, maxAtomsFromFrame: Bound)
    requires k < |seeds|
    requires SeededBy(seeds[..k], seeded, perSpecies, maxAtomsFromFrame)
    requires SeedChoice(seeds[k].species, atoms, perSpecies, maxAtomsFromFrame)
    ensures SeededBy(seeds[..k + 1], seeded + [atoms], perSpecies, maxAtomsFromFrame)
    ensures GatherFrames(seeds[..k + 1], seeded + [atoms])
            == GatherFrames(seeds[..k], seeded) + Gather(seeds[k].species, atoms)
  {
    var fs, ss := seeds[..k + 1], seeded + [atoms];
    forall j | 0 <= j < |fs|
      ensures SeedChoice(fs[j].species, ss[j], perSpecies, maxAtomsFromFrame)
    {
      if j < k {
        assert fs[j] == seeds[..k][j] && ss[j] == seeded[j];
      } else {
        assert fs[j] == seeds[k] && ss[j] == atoms;
      }
    }
    assert Indexed(seeds[..k], seeded) by {
      forall j | 0 <= j < k
        ensures ValidIndices(seeded[j], |seeds[..k][j].species|)
      {
        assert SeedChoice(seeds[..k][j].species, seeded[j], perSpecies, maxAtomsFromFrame);
      }
    }
    GatherFramesAppend(seeds, k, seeded, atoms);
  }

  /** One more passive frame, with its atoms, extends the passive facts and the gathered species. */
  lemma PassivePickedAppend(frames: seq<Frame>, k: nat, picked: seq<seq<int>>, atoms: seq<int>,
                            perSpecies: map<Species, Bound>, frameCap: Bound)
    requires k < |frames|
    requires PassivePicked(frames[..k], picked, perSpecies, frameCap)
    requires PassiveChoice(frames[k].species, atoms, perSpecies, frameCap)
    ensures PassivePicked(frames[..k + 1], picked + [atoms], perSpecies, frameCap)
    ensures Indexed(frames[..k + 1], picked + [atoms])
    ensures GatherFrames(frames[..k + 1], picked + [atoms])
            == GatherFrames(frames[..k], picked) + Gather(frames[k].species, atoms)
  {
    var fs, ps := frames[..k + 1], picked + [atoms];
    forall j | 0 <= j < |fs|
      ensures PassiveChoice(fs[j].species, ps[j], perSpecies, frameCap)
    {
      if j < k {
        assert fs[j] == frames[..k][j] && ps[j] == picked[j];
      } else {
        assert fs[j] == frames[k] && ps[j] == atoms;
      }
    }
    assert Indexed(frames[..k], picked) by {
      forall j | 0 <= j < k
        ensures ValidIndices(picked[j], |frames[..k][j].species|)
      {
        assert PassiveChoice(frames[..k][j].species, picked[j], perSpecies, frameCap);
      }
    }
    GatherFramesAppend(frames, k, picked, atoms);
  }
}
