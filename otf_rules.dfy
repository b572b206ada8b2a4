/**
 * The pure rules of the on-the-fly trainer: how a checkpoint file is named, how a
 * restored run decides which DFT code computes its forces, and how many
 * hyperparameter optimisations the `freeze_hyps` setting lets through.
 */
module OtfRules {
  import opened Wrappers

  predicate EndsWith(s: string, suffix: string) {
    |suffix| <= |s| && s[|s| - |suffix|..] == suffix
  }

  /** Python's `s[-n:]` for a positive `n`: the whole string when it is shorter. */
  function LastChars(s: string, n: nat): string
    requires n >= 1
  {
    if |s| >= n then s[|s| - n..] else s
  }

  const JsonSuffix: string := ".json"

  /** The name `checkpoint` writes to: ".json" is appended unless the name already ends with it. */
  function CheckpointFileName(name: string): (r: string)
    ensures EndsWith(r, JsonSuffix)
    ensures EndsWith(name, JsonSuffix) ==> r == name
    ensures !EndsWith(name, JsonSuffix) ==> r == name + JsonSuffix
  {
    if JsonSuffix != LastChars(name, 5) then name + JsonSuffix else name
  }

  /** Normalising a checkpoint name twice is the same as doing it once. */
  lemma CheckpointFileNameIdempotent(name: string)
    ensures CheckpointFileName(CheckpointFileName(name)) == CheckpointFileName(name)
  {
  }

  /** `sub` occurs in `s` starting at position `i`. */
  predicate OccursAt(s: string, sub: string, i: int) {
    0 <= i <= |s| - |sub| && s[i..i + |sub|] == sub
  }

  /** Python's `sub in s` on strings. */
  predicate Contains(s: string, sub: string) {
    exists i :: 0 <= i <= |s| - |sub| && OccursAt(s, sub, i)
  }

  /** The package that holds the DFT codes shipped with the program. */
  const InterfacePackage: string := "flare.dft_interface"

  /** The shipped DFT codes, in the order a restore tries them. */
  const DftCodes: seq<string> := ["qe", "cp2k", "vasp"]

  /** The code the constructor uses when it is given none. */
  const DefaultCode: string := "qe"

  /** Where forces come from: a shipped DFT code by its key, or a user module by its name. */
  datatype ForceSource = Software(code: string) | CustomModule(name: string)

  /** The first of `codes` that `name` contains. */
  function FirstContained(name: string, codes: seq<string>): (r: Option<string>)
    ensures r.None? <==> forall k :: 0 <= k < |codes| ==> !Contains(name, codes[k])
    ensures r.Some? ==> exists k :: 0 <= k < |codes| && codes[k] == r.value && Contains(name, codes[k])
                                    && forall j :: 0 <= j < k ==> !Contains(name, codes[j])
    decreases |codes|
  {
    if codes == [] then None
    else if Contains(name, codes[0]) then Some(codes[0])
    else
      var r := FirstContained(name, codes[1..]);
      assert forall k :: 1 <= k < |codes| ==> codes[k] == codes[1..][k - 1];
      r
  }

  /**
   * The force source a restored run is built with, from the module name the
   * checkpoint recorded. A name inside the shipped package yields the first code it
   * contains; if it contains none, the constructor's default is used, since the
   * checkpoint holds no force source of its own.
   */
  function ForceSourceOf(dftModule: string): ForceSource
  {
    if Contains(dftModule, InterfacePackage) then
      match FirstContained(dftModule, DftCodes)
      case Some(code) => Software(code)
      case None => Software(DefaultCode)
    else CustomModule(dftModule)
  }

  /** A module inside the shipped package restores the first code its name contains. */
  lemma {:induction false} ForceSourceFirstMatch(dftModule: string, k: nat)
    requires Contains(dftModule, InterfacePackage)
    requires k < |DftCodes| && Contains(dftModule, DftCodes[k])
    requires forall j :: 0 <= j < k ==> !Contains(dftModule, DftCodes[j])
    ensures ForceSourceOf(dftModule) == Software(DftCodes[k])
  {
    var r := FirstContained(dftModule, DftCodes);
    assert r.Some?;
    var i :| 0 <= i < |DftCodes| && DftCodes[i] == r.value && Contains(dftModule, DftCodes[i])
             && forall j :: 0 <= j < i ==> !Contains(dftModule, DftCodes[j]);
    if i != k {
      assert false;
    }
  }

  /** A module inside the shipped package that names no shipped code falls back to the default. */
  lemma ForceSourceFallback(dftModule: string)
    requires Contains(dftModule, InterfacePackage)
    requires forall k :: 0 <= k < |DftCodes| ==> !Contains(dftModule, DftCodes[k])
    ensures ForceSourceOf(dftModule) == Software(DefaultCode)
  {
  }

  /** Any other module is used as a user module under its own name. */
  lemma ForceSourceCustom(dftModule: string)
    requires !Contains(dftModule, InterfacePackage)
    ensures ForceSourceOf(dftModule) == CustomModule(dftModule)
  {
  }

  /**
   * The number of hyperparameter optimisations `update_gp` performs while `dft_count`
   * climbs from `lo` to `hi`: one for every count `d` with `d - 1 < freezeHyps`.
   */
  function FrozenTrainings(lo: int, hi: int, freezeHyps: int): nat
    decreases hi - lo
  {
    if hi <= lo then 0
    else FrozenTrainings(lo, hi - 1, freezeHyps) + (if hi - 1 < freezeHyps then 1 else 0)
  }

  /**
   * At most `freezeHyps - lo` optimisations happen, and none once `dft_count` has
   * reached `freezeHyps`; a fresh run (`lo == 0`) trains at most `freezeHyps` times.
   */
  lemma {:induction false} FrozenTrainingsBound(lo: int, hi: int, freezeHyps: int)
    ensures FrozenTrainings(lo, hi, freezeHyps) <= Max0(hi - lo)
    ensures FrozenTrainings(lo, hi, freezeHyps) <= Max0(freezeHyps - lo)
    decreases hi - lo
  {
    if hi > lo {
      FrozenTrainingsBound(lo, hi - 1, freezeHyps);
    }
  }

  /** Until `freeze_hyps` is reached, every DFT call is followed by an optimisation. */
  lemma {:induction false} FrozenTrainingsBeforeFreeze(lo: int, hi: int, freezeHyps: int)
    requires lo <= hi <= freezeHyps
    ensures FrozenTrainings(lo, hi, freezeHyps) == hi - lo
    decreases hi - lo
  {
    if hi > lo {
      FrozenTrainingsBeforeFreeze(lo, hi - 1, freezeHyps);
    }
  }

  function Max0(x: int): nat {
    if x < 0 then 0 else x
  }
}
