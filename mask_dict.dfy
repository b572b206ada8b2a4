/**
 * The dictionary `generate_dict` assembles once the masks and per-group lists of
 * every group type are built: the counts and masks of the group types that have
 * groups, the hyperparameter vector, and the cutoff lists that were given.
 */
module MaskDict {
  import opened Wrappers
  import opened MaskTypes
  import opened HypsVector

  /**
   * What `print_group` leaves for a group type with at least one group: the group
   * count, the flattened mask, the per-group hyperparameters and the per-group
   * cutoffs (empty when no group of the type has its own cutoff).
   */
  datatype Part = Part(count: int, mask: seq<int>, block: Block, cutoffs: seq<real>)

  function Present(p: Option<Part>): seq<Block> {
    if p.Some? then [p.value.block] else []
  }

  /** The blocks stacked into the vector, in the order bond, triplet, many-body. */
  function Blocks(bond: Option<Part>, triplet: Option<Part>, mb: Option<Part>): seq<Block> {
    Present(bond) + Present(triplet) + Present(mb)
  }

  function CountOf(p: Option<Part>): Option<int> {
    if p.Some? then Some(p.value.count) else None
  }

  function MaskOf(p: Option<Part>): Option<seq<int>> {
    if p.Some? then Some(p.value.mask) else None
  }

  /** A cutoff list is written only when it is non-empty. */
  function CutoffsOf(p: Option<Part>): Option<seq<real>> {
    if p.Some? && |p.value.cutoffs| > 0 then Some(p.value.cutoffs) else None
  }

  /** The dictionary itself, or the error stacking the vector raised. */
  function BuildDict(nspecie: int, specieMask: seq<int>, bond: Option<Part>, triplet: Option<Part>, mb: Option<Part>,
                     cut3b: Option<Part>, noise: seq<real>, noiseOpt: bool): Result<HypsMask, Failure>
  {
    match VectorOf(Blocks(bond, triplet, mb), noise, noiseOpt)
    case Err(e) => Err(e)
    case Ok(v) =>
      var c3 := CutoffsOf(cut3b);
      Ok(HypsMask(
        nspecie := Some(nspecie),
        specieMask := Some(specieMask),
        nbond := CountOf(bond),
        bondMask := MaskOf(bond),
        ntriplet := CountOf(triplet),
        tripletMask := MaskOf(triplet),
        nmb := CountOf(mb),
        mbMask := MaskOf(mb),
        original := Some(v.original),
        mapping := v.mapping,
        hyps := Some(v.hyps),
        trainNoise := Some(noiseOpt),
        cutoff2b := CutoffsOf(bond),
        cutoff3b := c3,
        ncut3b := if c3.Some? then CountOf(cut3b) else None,
        cut3bMask := if c3.Some? then MaskOf(cut3b) else None,
        cutoffMb := CutoffsOf(mb)))
  }
}
