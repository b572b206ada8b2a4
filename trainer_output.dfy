/**
 * The growth of the model along a trajectory trainer's output, as
 * `parse_trajectory_trainer_output` reconstructs it: the model's size before the
 * run, after the pre-run when one was logged, and after every frame, where every
 * frame adds the atoms it lists under `added_atoms`.
 */
module TrainerOutput {
  import opened Wrappers
  import opened Seqs

  /** A parsed frame, reduced to the values of its `added_atoms` dictionary: one list of atoms per species. */
  datatype ParsedFrame = ParsedFrame(addedAtoms: seq<seq<int>>)

  /** The number of atoms a parsed frame added to the model. */
  function FrameAdded(f: ParsedFrame): nat {
    TotalLength(f.addedAtoms)
  }

  /** The model's size after the given frames, starting from `base`. */
  function Running(base: int, frames: seq<ParsedFrame>): int
  {
    if frames == [] then base else Running(base, frames[..|frames| - 1]) + FrameAdded(frames[|frames| - 1])
  }

  /** The model's size after each of the frames. */
  function Cumulative(base: int, frames: seq<ParsedFrame>): seq<int>
  {
    if frames == [] then [] else Cumulative(base, frames[..|frames| - 1]) + [Running(base, frames)]
  }

  /** The sizes recorded before any frame: the initial size, then the pre-run size if there was one. */
  function Seeds(initial: int, preRun: Option<int>): (r: seq<int>)
    ensures 1 <= |r| <= 2 && r[0] == initial
    ensures preRun.Some? <==> |r| == 2
    ensures preRun.Some? ==> r[1] == preRun.value
  {
    [initial] + (if preRun.Some? then [preRun.value] else [])
  }

  /** `cumulative_gp_size` */
  function CumulativeSizes(initial: int, preRun: Option<int>, frames: seq<ParsedFrame>): seq<int>
  {
    var seeds := Seeds(initial, preRun);
    seeds + Cumulative(seeds[|seeds| - 1], frames)
  }

  /** The loop that builds `cumulative_gp_size`. */
  method CumulativeGpSize(initial: int, preRun: Option<int>, frames: seq<ParsedFrame>) returns (sizes: seq<int>)
    ensures sizes == CumulativeSizes(initial, preRun, frames)
  {
    sizes := [initial];
    if preRun.Some? {
      sizes := sizes + [preRun.value];
    }
    var runningTotal := sizes[|sizes| - 1];
    ghost var base := runningTotal;
    ghost var seeds := sizes;
    var k := 0;
    while k < |frames|
      invariant 0 <= k <= |frames|
      invariant runningTotal == Running(base, frames[..k])
      invariant sizes == seeds + Cumulative(base, frames[..k])
    {
      var values := frames[k].addedAtoms;
      var j := 0;
      while j < |values|
        invariant 0 <= j <= |values|
        invariant runningTotal == Running(base, frames[..k]) + TotalLength(values[..j])
      {
        TotalLengthAppend(values[..j], values[j]);
        assert values[..j + 1] == values[..j] + [values[j]];
        runningTotal := runningTotal + |values[j]|;
        j := j + 1;
      }
      assert values[..j] == values;
      assert frames[..k + 1][..k] == frames[..k];
      sizes := sizes + [runningTotal];
      k := k + 1;
    }
    assert frames[..k] == frames;
  }

  lemma {:induction false} CumulativeLength(base: int, frames: seq<ParsedFrame>)
    ensures |Cumulative(base, frames)| == |frames|
    decreases |frames|
  {
    if frames != [] {
      CumulativeLength(base, frames[..|frames| - 1]);
    }
  }

  /** The entry for frame `k` is the size after the first `k + 1` frames. */
  lemma {:induction false} CumulativeAt(base: int, frames: seq<ParsedFrame>, k: nat)
    requires k < |frames|
    ensures |Cumulative(base, frames)| == |frames|
    ensures Cumulative(base, frames)[k] == Running(base, frames[..k + 1])
    decreases |frames|
  {
    CumulativeLength(base, frames);
    var p := frames[..|frames| - 1];
    CumulativeLength(base, p);
    if k < |p| {
      CumulativeAt(base, p, k);
      assert p[..k + 1] == frames[..k + 1];
    } else {
      assert frames[..k + 1] == frames;
    }
  }

  lemma RunningStep(base: int, frames: seq<ParsedFrame>, k: nat)
    requires k < |frames|
    ensures Running(base, frames[..k + 1]) == Running(base, frames[..k]) + FrameAdded(frames[k])
  {
    assert frames[..k + 1][..k] == frames[..k];
  }

  /** The size after more frames is never smaller: frames only add atoms. */
  lemma {:induction false} RunningMonotone(base: int, frames: seq<ParsedFrame>, i: nat, j: nat)
    requires i <= j <= |frames|
    ensures base <= Running(base, frames[..i]) <= Running(base, frames[..j])
    decreases j
  {
    if i < j {
      RunningMonotone(base, frames, i, j - 1);
      RunningStep(base, frames, j - 1);
    } else if i > 0 {
      RunningMonotone(base, frames, i - 1, i - 1);
      RunningStep(base, frames, i - 1);
    } else {
      assert frames[..0] == [];
    }
  }

  /** The sizes after each frame never decrease and never fall below the starting size. */
  lemma CumulativeMonotone(base: int, frames: seq<ParsedFrame>)
    ensures |Cumulative(base, frames)| == |frames|
    ensures forall i :: 0 <= i < |frames| ==> base <= Cumulative(base, frames)[i]
    ensures forall i, j :: 0 <= i <= j < |frames| ==> Cumulative(base, frames)[i] <= Cumulative(base, frames)[j]
  {
    CumulativeLength(base, frames);
    forall i | 0 <= i < |frames| ensures base <= Cumulative(base, frames)[i] {
      CumulativeAt(base, frames, i);
      RunningMonotone(base, frames, i + 1, i + 1);
    }
    forall i, j | 0 <= i <= j < |frames| ensures Cumulative(base, frames)[i] <= Cumulative(base, frames)[j] {
      CumulativeAt(base, frames, i);
      CumulativeAt(base, frames, j);
      RunningMonotone(base, frames, i + 1, j + 1);
    }
  }

  /**
   * The recorded sizes after the seeds never decrease, they start at the last seed
   * and the final one is that seed plus every atom the frames added.
   */
  lemma CumulativeSizesGrow(initial: int, preRun: Option<int>, frames: seq<ParsedFrame>)
    ensures var sizes := CumulativeSizes(initial, preRun, frames);
            var s := |Seeds(initial, preRun)|;
            && |sizes| == s + |frames|
            && sizes[0] == initial
            && (preRun.Some? ==> sizes[1] == preRun.value)
            && (forall i, j :: s - 1 <= i <= j < |sizes| ==> sizes[i] <= sizes[j])
            && sizes[|sizes| - 1] == Running(sizes[s - 1], frames)
  {
    var seeds := Seeds(initial, preRun);
    var base := seeds[|seeds| - 1];
    var c := Cumulative(base, frames);
    var sizes := CumulativeSizes(initial, preRun, frames);
    var s := |seeds|;
    CumulativeMonotone(base, frames);
    assert sizes == seeds + c;
    forall i, j | s - 1 <= i <= j < |sizes| ensures sizes[i] <= sizes[j] {
      if i == s - 1 {
        if j > i {
          assert sizes[j] == c[j - s];
        }
      } else {
        assert sizes[i] == c[i - s] && sizes[j] == c[j - s];
      }
    }
    if frames != [] {
      CumulativeAt(base, frames, |frames| - 1);
      assert frames[..|frames|] == frames;
    }
  }
}
