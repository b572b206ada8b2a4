/**
 * The flat hyperparameter vector `generate_dict` assembles: per group type present,
 * all its groups' signal variances, then all their length scales; the noise last;
 * and, when some optimisation flag is off, the `map` of trained positions and the
 * trained sub-vector `hyps`.
 */
module HypsVector {
  import opened Wrappers
  import opened MaskTypes

  /**
   * What `print_group` collects for one group type: one signal variance and one
   * length scale per group, and the two flags of each group interleaved as
   * `[sig0, ls0, sig1, ls1, ...]`.
   */
  datatype Block = Block(sig: seq<real>, ls: seq<real>, opt: seq<bool>)

  predicate Shaped(b: Block) {
    |b.ls| == |b.sig| && |b.opt| == 2 * |b.sig|
  }

  predicate AllShaped(bs: seq<Block>) {
    forall i :: 0 <= i < |bs| ==> Shaped(bs[i])
  }

  /** `np.hstack(hyps)`: each block's variances, then its length scales. */
  function Values(bs: seq<Block>): seq<real> {
    if bs == [] then [] else bs[0].sig + bs[0].ls + Values(bs[1..])
  }

  /** `np.hstack(opt)` without the noise flag. */
  function OptFlags(bs: seq<Block>): seq<bool> {
    if bs == [] then [] else bs[0].opt + OptFlags(bs[1..])
  }

  /** The number of groups over all blocks. */
  function GroupCount(bs: seq<Block>): nat {
    if bs == [] then 0 else |bs[0].sig| + GroupCount(bs[1..])
  }

  lemma {:induction false} ValuesLength(bs: seq<Block>)
    requires AllShaped(bs)
    ensures |Values(bs)| == 2 * GroupCount(bs)
    ensures |OptFlags(bs)| == 2 * GroupCount(bs)
  {
    if bs != [] {
      assert Shaped(bs[0]);
      ValuesLength(bs[1..]);
    }
  }

  /** The ascending positions `i < n` whose flag is on: the mapping loop's result. */
  function Trainable(flags: seq<bool>, n: nat): (r: seq<int>)
    requires n <= |flags|
    ensures forall k :: 0 <= k < |r| ==> 0 <= r[k] < n
  {
    if n == 0 then [] else Trainable(flags, n - 1) + (if flags[n - 1] then [n - 1] else [])
  }

  /** The mapping lists exactly the flagged positions, in strictly increasing order. */
  lemma {:induction false} TrainableSpec(flags: seq<bool>, n: nat)
    requires n <= |flags|
    ensures forall i :: i in Trainable(flags, n) <==> 0 <= i < n && flags[i]
    ensures forall k, l :: 0 <= k < l < |Trainable(flags, n)| ==> Trainable(flags, n)[k] < Trainable(flags, n)[l]
  {
    if n > 0 {
      TrainableSpec(flags, n - 1);
    }
  }

  /**
   * The loop `for i in range(nhyps): if opt[i]: mapping += [i]`; it indexes the flags
   * with every position of the vector, so a vector longer than the flags raises.
   */
  method MapIndices(flags: seq<bool>, n: nat) returns (r: Result<seq<int>, Failure>)
    ensures n > |flags| ==> r == Err(IndexError)
    ensures n <= |flags| ==> r == Ok(Trainable(flags, n))
  {
    var mapping: seq<int> := [];
    var i := 0;
    while i < n
      invariant 0 <= i <= n && i <= |flags|
      invariant mapping == Trainable(flags, i)
    {
      if i >= |flags| {
        return Err(IndexError);
      }
      if flags[i] {
        mapping := mapping + [i];
      }
      i := i + 1;
    }
    return Ok(mapping);
  }

  /** `original[mapping]` */
  function Select(xs: seq<real>, m: seq<int>): (r: seq<real>)
    requires forall k :: 0 <= k < |m| ==> 0 <= m[k] < |xs|
    ensures |r| == |m| && forall k :: 0 <= k < |m| ==> r[k] == xs[m[k]]
  {
    seq(|m|, k requires 0 <= k < |m| => xs[m[k]])
  }

  /** The vector `original`, its optional `map`, and `hyps`. */
  datatype Vector = Vector(original: seq<real>, mapping: Option<seq<int>>, hyps: seq<real>)

  /**
   * The vector part of `generate_dict`: stacking no block raises ValueError; with
   * every flag on there is no map; otherwise the mapping loop runs over the whole
   * vector, and an empty mapping raises ValueError when it is stacked.
   */
  function VectorOf(bs: seq<Block>, noise: seq<real>, noiseOpt: bool): Result<Vector, Failure> {
    if bs == [] then Err(ValueError)
    else
      var original := Values(bs) + noise;
      var flags := OptFlags(bs) + [noiseOpt];
      if forall i :: 0 <= i < |flags| ==> flags[i] then Ok(Vector(original, None, original))
      else if |original| > |flags| then Err(IndexError)
      else
        var m := Trainable(flags, |original|);
        if m == [] then Err(ValueError) else Ok(Vector(original, Some(m), Select(original, m)))
  }

  /**
   * The vector holds two entries per group and the noise last; `hyps` is `original`
   * when there is no map, and otherwise the entries at the map's positions, which
   * are exactly the positions whose flag is on, in increasing order.
   */
  lemma VectorLayout(bs: seq<Block>, noise: seq<real>, noiseOpt: bool)
    requires AllShaped(bs) && VectorOf(bs, noise, noiseOpt).Ok?
    ensures var v := VectorOf(bs, noise, noiseOpt).value;
      |v.original| == 2 * GroupCount(bs) + |noise|
      && v.original[2 * GroupCount(bs)..] == noise
      && (v.mapping.None? ==> v.hyps == v.original)
    ensures var v := VectorOf(bs, noise, noiseOpt).value;
      var flags := OptFlags(bs) + [noiseOpt];
      v.mapping.Some? ==>
        |v.original| <= |flags|
        && (forall i :: i in v.mapping.value <==> 0 <= i < |v.original| && flags[i])
        && (forall k, l :: 0 <= k < l < |v.mapping.value| ==> v.mapping.value[k] < v.mapping.value[l])
        && |v.hyps| == |v.mapping.value|
        && (forall k :: 0 <= k < |v.hyps| ==> 0 <= v.mapping.value[k] < |v.original| && v.hyps[k] == v.original[v.mapping.value[k]])
  {
    ValuesLength(bs);
    var flags := OptFlags(bs) + [noiseOpt];
    var original := Values(bs) + noise;
    if !(forall i :: 0 <= i < |flags| ==> flags[i]) {
      TrainableSpec(flags, |original|);
    }
  }

  /**
   * With at least one block, a single noise value and the noise flag on, the vector
   * is always built, and a map, if any, keeps the noise position.
   */
  lemma VectorBuilt(bs: seq<Block>, noise: seq<real>)
    requires AllShaped(bs) && bs != [] && |noise| == 1
    ensures VectorOf(bs, noise, true).Ok?
    ensures var v := VectorOf(bs, noise, true).value;
      v.mapping.Some? ==> |v.original| - 1 in v.mapping.value
  {
    ValuesLength(bs);
    var flags := OptFlags(bs) + [true];
    var original := Values(bs) + noise;
    assert |original| == |flags|;
    TrainableSpec(flags, |original|);
    assert |original| - 1 in Trainable(flags, |original|);
  }

  /**
   * The flags are interleaved per group while the values are not: with two groups
   * where only the second group's variance is frozen (`[True, True, False, True]`),
   * the map keeps that frozen variance (2.0) and drops the first group's trained
   * length scale (3.0).
   */
  lemma FlagsMisaligned()
    ensures VectorOf([Block([1.0, 2.0], [3.0, 4.0], [true, true, false, true])], [0.5], true)
         == Ok(Vector([1.0, 2.0, 3.0, 4.0, 0.5], Some([0, 1, 3, 4]), [1.0, 2.0, 4.0, 0.5]))
  {
    var bs := [Block([1.0, 2.0], [3.0, 4.0], [true, true, false, true])];
    var flags := [true, true, false, true, true];
    assert Values(bs) == [1.0, 2.0, 3.0, 4.0] by {
      assert bs[1..] == [];
    }
    assert OptFlags(bs) + [true] == flags by {
      assert bs[1..] == [];
    }
    assert !flags[2];
    assert Trainable(flags, 0) == [];
    assert Trainable(flags, 1) == [0];
    assert Trainable(flags, 2) == [0, 1];
    assert Trainable(flags, 3) == [0, 1];
    assert Trainable(flags, 4) == [0, 1, 3];
    assert Trainable(flags, 5) == [0, 1, 3, 4];
    var original := [1.0, 2.0, 3.0, 4.0, 0.5];
    assert Values(bs) + [0.5] == original;
    assert Select(original, [0, 1, 3, 4]) == [1.0, 2.0, 4.0, 0.5];
  }
}
