/**
 * The Gaussian process as the controllers see it: a training set that only grows,
 * and a log of the operations they ask of it (adding data, training hyperparameters,
 * refreshing or rebuilding the covariance factorisation, writing the model to disk).
 * Kernels, likelihoods and predictions are not modelled.
 */
module GaussianProcess {
  import opened Wrappers
  import opened Seqs

  /** A coded species: the atomic number of an element. */
  type Species = int

  datatype Event =
    | Added(count: nat, withEnergy: bool, withStress: bool)  // `update_db` / `add_one_env`
    | Trained(maxIter: Option<int>)                          // `train`, optionally with `maxiter` overridden
    | Refreshed                                              // `update_L_alpha`
    | Factorized                                             // `check_L_alpha`
    | FactorSet                                              // `set_L_alpha`
    | Written(name: string)                                  // `write_model`

  /** The number of hyperparameter optimisations in a log. */
  function Trainings(log: seq<Event>): (r: nat)
    ensures r <= |log|
  {
    if log == [] then 0 else Trainings(log[..|log| - 1]) + (if log[|log| - 1].Trained? then 1 else 0)
  }

  lemma TrainingsAppend(log: seq<Event>, more: seq<Event>)
    ensures Trainings(log + more) == Trainings(log) + Trainings(more)
    decreases |more|
  {
    if more != [] {
      var m := more[..|more| - 1];
      assert (log + more)[..|log + more| - 1] == log + m;
      TrainingsAppend(log, m);
    } else {
      assert log + more == log;
    }
  }

  /** The number of times a log writes the model to disk. */
  function Writes(log: seq<Event>): (r: nat)
    ensures r <= |log|
  {
    if log == [] then 0 else Writes(log[..|log| - 1]) + (if log[|log| - 1].Written? then 1 else 0)
  }

  lemma WritesAppend(log: seq<Event>, more: seq<Event>)
    ensures Writes(log + more) == Writes(log) + Writes(more)
    decreases |more|
  {
    if more != [] {
      var m := more[..|more| - 1];
      assert (log + more)[..|log + more| - 1] == log + m;
      WritesAppend(log, m);
    } else {
      assert log + more == log;
    }
  }

  /** One more event adds to the training and writing counts exactly what it is. */
  lemma CountsStep(log: seq<Event>, e: Event)
    ensures Trainings(log + [e]) == Trainings(log) + (if e.Trained? then 1 else 0)
    ensures Writes(log + [e]) == Writes(log) + (if e.Written? then 1 else 0)
  {
    assert (log + [e])[..|log|] == log;
  }

  class Gp {
    /** The species of every training environment, in the order they were added. */
    var data: seq<Species>
    var log: seq<Event>

    constructor (initial: seq<Species>)
      ensures data == initial && log == []
    {
      data := initial;
      log := [];
    }

    /** `len(gp)`, also `training_statistics["N"]` */
    function Size(): nat
      reads this
    {
      |data|
    }

    /** `training_statistics["envs_by_species"].get(s, 0)` */
    function EnvsOf(s: Species): nat
      reads this
    {
      multiset(data)[s]
    }

    /** `update_db(structure, forces, custom_range=atoms, ...)`: one environment per listed atom. */
    method UpdateDb(species: seq<Species>, atoms: seq<int>, withEnergy: bool, withStress: bool)
      requires ValidIndices(atoms, |species|)
      modifies this
      ensures data == old(data) + Gather(species, atoms)
      ensures log == old(log) + [Added(|atoms|, withEnergy, withStress)]
    {
      data := data + Gather(species, atoms);
      log := log + [Added(|atoms|, withEnergy, withStress)];
    }

    /** `add_one_env(env, force, train=False)` */
    method AddOneEnv(s: Species)
      modifies this
      ensures data == old(data) + [s]
      ensures log == old(log) + [Added(1, false, false)]
    {
      data := data + [s];
      log := log + [Added(1, false, false)];
    }

    method Train(maxIter: Option<int>)
      modifies this
      ensures data == old(data) && log == old(log) + [Trained(maxIter)]
    {
      log := log + [Trained(maxIter)];
    }

    method UpdateLAlpha()
      modifies this
      ensures data == old(data) && log == old(log) + [Refreshed]
    {
      log := log + [Refreshed];
    }

    method CheckLAlpha()
      modifies this
      ensures data == old(data) && log == old(log) + [Factorized]
    {
      log := log + [Factorized];
    }

    method SetLAlpha()
      modifies this
      ensures data == old(data) && log == old(log) + [FactorSet]
    {
      log := log + [FactorSet];
    }

    method WriteModel(name: string)
      modifies this
      ensures data == old(data) && log == old(log) + [Written(name)]
    {
      log := log + [Written(name)];
    }
  }
}
