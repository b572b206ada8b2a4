/**
 * What `print_group` computes for one group type from the registries and the
 * parameter tables: the mask, the per-group signal variances, length scales and
 * flags, and the per-group cutoffs, or the exception its lookups raise. The
 * functions specify; the methods compute the same thing the way the source does,
 * with a mask array written in place.
 */
module GroupParts {
  import opened Wrappers
  import opened MaskTypes
  import opened MaskIndex
  import opened HypsVector
  import opened MaskDict
  import opened MaskCheck

  /** The four dictionaries `set_parameters` writes, taken together. */
  datatype Tables = Tables(sigma: map<string, real>, ls: map<string, real>, cutoff: map<string, real>, opt: map<string, bool>)

  /** The key of a group's entries: the type name followed by the group name. */
  function Key(t: GroupType, name: string): string {
    TypeName(t) + name
  }

  /** The group has a string name and all four of its entries are set. */
  predicate HasHyps(t: GroupType, name: Value, tb: Tables) {
    name.Str?
    && Key(t, name.s) in tb.sigma && Key(t, name.s) in tb.ls
    && Key(t, name.s) + "sig" in tb.opt && Key(t, name.s) + "ls" in tb.opt
  }

  /**
   * The lookups for one group: the name is appended to the type name (a list name
   * raises TypeError), then the variance, length scale and two flags are read (a
   * missing key raises KeyError).
   */
  function GroupHyps(t: GroupType, name: Value, tb: Tables): (r: Result<Block, Failure>)
    ensures r.Ok? <==> HasHyps(t, name, tb)
    ensures r.Err? ==> r.error == if name.List? then TypeError else KeyError
  {
    if name.List? then Err(TypeError)
    else if !HasHyps(t, name, tb) then Err(KeyError)
    else
      var f := Key(t, name.s);
      Ok(Block([tb.sigma[f]], [tb.ls[f]], [tb.opt[f + "sig"], tb.opt[f + "ls"]]))
  }

  function Join(a: Block, b: Block): Block {
    Block(a.sig + b.sig, a.ls + b.ls, a.opt + b.opt)
  }

  /**
   * The loop over the groups of one type: each group's tuples must be long enough
   * for the mask writes (else IndexError), then, outside `cut3b`, its lookups run.
   * The first group that fails decides the exception.
   */
  function GroupLookups(t: GroupType, groups: seq<seq<seq<int>>>, names: seq<Value>, tb: Tables, arity: nat): Result<Block, Failure>
    requires |groups| == |names|
  {
    if groups == [] then Ok(Block([], [], []))
    else
      var last := |groups| - 1;
      LookupStep(t, GroupLookups(t, groups[..last], names[..last], tb, arity), groups[last], names[last], tb, arity)
  }

  /** One group of the loop, after the groups before it gave `res`. */
  function LookupStep(t: GroupType, res: Result<Block, Failure>, tuples: seq<seq<int>>, name: Value, tb: Tables, arity: nat): Result<Block, Failure> {
    match res
    case Err(e) => Err(e)
    case Ok(b) =>
      if !Long(tuples, arity) then Err(IndexError)
      else if t == Cut3b then Ok(b)
      else
        match GroupHyps(t, name, tb)
        case Err(e) => Err(e)
        case Ok(h) => Ok(Join(b, h))
  }

  lemma GroupLookupsNext(t: GroupType, groups: seq<seq<seq<int>>>, names: seq<Value>, tb: Tables, arity: nat, k: nat)
    requires |groups| == |names| && k < |groups|
    ensures GroupLookups(t, groups[..k + 1], names[..k + 1], tb, arity)
         == LookupStep(t, GroupLookups(t, groups[..k], names[..k], tb, arity), groups[k], names[k], tb, arity)
  {
    assert groups[..k + 1][..k] == groups[..k] && names[..k + 1][..k] == names[..k];
  }

  /**
   * The loop succeeds exactly when every group's tuples are long enough and, outside
   * `cut3b`, every group has its entries; it raises only IndexError, TypeError or
   * KeyError.
   */
  lemma {:induction false} GroupLookupsOk(t: GroupType, groups: seq<seq<seq<int>>>, names: seq<Value>, tb: Tables, arity: nat)
    requires |groups| == |names|
    ensures var r := GroupLookups(t, groups, names, tb, arity);
      r.Ok? <==> (forall g :: 0 <= g < |groups| ==> Long(groups[g], arity))
                 && (t != Cut3b ==> forall g :: 0 <= g < |names| ==> HasHyps(t, names[g], tb))
    ensures var r := GroupLookups(t, groups, names, tb, arity);
      r.Err? ==> r.error == IndexError || r.error == TypeError || r.error == KeyError
    decreases |groups|
  {
    if groups != [] {
      var last := |groups| - 1;
      var gi, ni := groups[..last], names[..last];
      GroupLookupsOk(t, gi, ni, tb, arity);
      assert forall g :: 0 <= g < last ==> gi[g] == groups[g] && ni[g] == names[g];
    }
  }

  /**
   * What the loop lists when it succeeds: nothing for `cut3b`, and otherwise, group
   * by group, the variance, the length scale and the two flags interleaved.
   */
  lemma {:induction false} GroupLookupsValues(t: GroupType, groups: seq<seq<seq<int>>>, names: seq<Value>, tb: Tables, arity: nat)
    requires |groups| == |names| && GroupLookups(t, groups, names, tb, arity).Ok?
    ensures var b := GroupLookups(t, groups, names, tb, arity).value;
      t == Cut3b ==> b == Block([], [], [])
    ensures var b := GroupLookups(t, groups, names, tb, arity).value;
      t != Cut3b ==>
        Shaped(b) && |b.sig| == |groups|
        && forall g :: 0 <= g < |groups| ==>
             names[g].Str?
             && var f := Key(t, names[g].s);
             f in tb.sigma && f in tb.ls && f + "sig" in tb.opt && f + "ls" in tb.opt
             && b.sig[g] == tb.sigma[f] && b.ls[g] == tb.ls[f]
             && b.opt[2 * g] == tb.opt[f + "sig"] && b.opt[2 * g + 1] == tb.opt[f + "ls"]
    decreases |groups|
  {
    if groups != [] {
      var last := |groups| - 1;
      var gi, ni := groups[..last], names[..last];
      GroupLookupsValues(t, gi, ni, tb, arity);
      if t != Cut3b {
        var b0 := GroupLookups(t, gi, ni, tb, arity).value;
        var h := GroupHyps(t, names[last], tb).value;
        var b := Join(b0, h);
        assert GroupLookups(t, groups, names, tb, arity).value == b;
        forall g | 0 <= g < |groups|
          ensures names[g].Str?
          ensures var f := Key(t, names[g].s);
            f in tb.sigma && f in tb.ls && f + "sig" in tb.opt && f + "ls" in tb.opt
            && b.sig[g] == tb.sigma[f] && b.ls[g] == tb.ls[f]
            && b.opt[2 * g] == tb.opt[f + "sig"] && b.opt[2 * g + 1] == tb.opt[f + "ls"]
        {
          if g < last {
            assert ni[g] == names[g];
          }
        }
      }
    }
  }

  /** When the loop over the groups ends, its result is the lookups of all of them. */
  lemma GroupLookupsDone(t: GroupType, groups: seq<seq<seq<int>>>, names: seq<Value>, tb: Tables, arity: nat, k: nat)
    requires |groups| == |names| && k <= |groups|
    requires k == |groups| || GroupLookups(t, groups[..k], names[..k], tb, arity).Err?
    ensures GroupLookups(t, groups, names, tb, arity) == GroupLookups(t, groups[..k], names[..k], tb, arity)
  {
    if k == |groups| {
      assert groups[..k] == groups && names[..k] == names;
    } else {
      GroupLookupsStops(t, groups, names, tb, arity, k);
    }
  }

  /** After a group fails, the later groups change nothing. */
  lemma {:induction false} GroupLookupsStops(t: GroupType, groups: seq<seq<seq<int>>>, names: seq<Value>, tb: Tables, arity: nat, k: nat)
    requires |groups| == |names| && k <= |groups|
    requires GroupLookups(t, groups[..k], names[..k], tb, arity).Err?
    ensures GroupLookups(t, groups, names, tb, arity) == GroupLookups(t, groups[..k], names[..k], tb, arity)
    decreases |groups|
  {
    if k < |groups| {
      var last := |groups| - 1;
      assert groups[..last][..k] == groups[..k] && names[..last][..k] == names[..k];
      GroupLookupsStops(t, groups[..last], names[..last], tb, arity, k);
    } else {
      assert groups[..k] == groups && names[..k] == names;
    }
  }

  /** The cutoffs of every group, in order; the first missing one raises KeyError. */
  function CutoffValues(t: GroupType, names: seq<Value>, cutoff: map<string, real>): Result<seq<real>, Failure>
    requires forall k :: 0 <= k < |names| ==> names[k].Str?
  {
    if names == [] then Ok([])
    else
      var last := |names| - 1;
      match CutoffValues(t, names[..last], cutoff)
      case Err(e) => Err(e)
      case Ok(cs) =>
        if Key(t, names[last].s) in cutoff then Ok(cs + [cutoff[Key(t, names[last].s)]]) else Err(KeyError)
  }

  /**
   * `cutoff_list[group_type]`: the presence test appends every name to the type
   * name (a list name raises TypeError); with no group's cutoff set the list is
   * empty, and otherwise every group's cutoff is read.
   */
  function CutoffList(t: GroupType, names: seq<Value>, cutoff: map<string, real>): Result<seq<real>, Failure> {
    if exists k :: 0 <= k < |names| && names[k].List? then Err(TypeError)
    else if forall k :: 0 <= k < |names| ==> Key(t, names[k].s) !in cutoff then Ok([])
    else CutoffValues(t, names, cutoff)
  }

  lemma {:induction false} CutoffValuesSpec(t: GroupType, names: seq<Value>, cutoff: map<string, real>)
    requires forall k :: 0 <= k < |names| ==> names[k].Str?
    ensures var r := CutoffValues(t, names, cutoff);
      (r.Ok? <==> forall k :: 0 <= k < |names| ==> Key(t, names[k].s) in cutoff)
      && (r.Err? ==> r.error == KeyError)
      && (r.Ok? ==> |r.value| == |names| && forall k :: 0 <= k < |names| ==> r.value[k] == cutoff[Key(t, names[k].s)])
    decreases |names|
  {
    if names != [] {
      var last := |names| - 1;
      var init := names[..last];
      CutoffValuesSpec(t, init, cutoff);
      assert forall k :: 0 <= k < last ==> init[k] == names[k];
    }
  }

  /**
   * The cutoff list is all or nothing: empty when no group of the type has a
   * cutoff, one cutoff per group when every group has one, and KeyError when only
   * some do; a list name raises TypeError first.
   */
  lemma CutoffListSpec(t: GroupType, names: seq<Value>, cutoff: map<string, real>)
    ensures var r := CutoffList(t, names, cutoff);
      ((exists k :: 0 <= k < |names| && names[k].List?) ==> r == Err(TypeError))
      && ((forall k :: 0 <= k < |names| ==> names[k].Str?) ==>
            ((forall k :: 0 <= k < |names| ==> Key(t, names[k].s) !in cutoff) ==> r == Ok([]))
            && ((exists k :: 0 <= k < |names| && Key(t, names[k].s) in cutoff) ==>
                  (r.Ok? <==> forall k :: 0 <= k < |names| ==> Key(t, names[k].s) in cutoff)
                  && (r.Err? ==> r.error == KeyError)
                  && (r.Ok? ==> |r.value| == |names| && forall k :: 0 <= k < |names| ==> r.value[k] == cutoff[Key(t, names[k].s)])))
  {
    if forall k :: 0 <= k < |names| ==> names[k].Str? {
      CutoffValuesSpec(t, names, cutoff);
    }
  }

  /** Every group's tuples name species groups below `s`. */
  predicate AllBounded(groups: seq<seq<seq<int>>>, s: int) {
    forall g :: 0 <= g < |groups| ==> Bounded(groups[g], s)
  }

  /**
   * `print_group` for `bond`, `cut3b` or `mb` with at least one group: the mask,
   * the per-group lists and the cutoff list, or the first exception raised.
   */
  function PairPartOf(t: GroupType, s: nat, groups: seq<seq<seq<int>>>, names: seq<Value>, tb: Tables): Result<Part, Failure>
    requires |groups| == |names| && |groups| >= 1 && AllBounded(groups, s)
  {
    match GroupLookups(t, groups, names, tb, 2)
    case Err(e) => Err(e)
    case Ok(b) =>
      GroupLookupsOk(t, groups, names, tb, 2);
      ReadyTagged(groups, s, 2);
      match CutoffList(t, names, tb.cutoff)
      case Err(e) => Err(e)
      case Ok(cs) => Ok(Part(|groups|, PairMaskOf(s, |groups|, groups), b, cs))
  }

  /** `print_group('triplet')` with at least one group: the mask and the per-group lists. */
  function TripletPartOf(s: nat, groups: seq<seq<seq<int>>>, names: seq<Value>, tb: Tables): Result<Part, Failure>
    requires |groups| == |names| && |groups| >= 1 && AllBounded(groups, s)
  {
    match GroupLookups(Triplet, groups, names, tb, 3)
    case Err(e) => Err(e)
    case Ok(b) =>
      GroupLookupsOk(Triplet, groups, names, tb, 3);
      ReadyTagged(groups, s, 3);
      Ok(Part(|groups|, TripletMaskOf(s, |groups|, groups), b, []))
  }

  /**
   * A pair part that was built is well formed: a symmetric mask of `s*s` valid
   * group ids, and, outside `cut3b`, one variance, one length scale and two flags
   * per group, with a cutoff list that is empty or has one entry per group.
   */
  lemma PairPartShaped(t: GroupType, s: nat, groups: seq<seq<seq<int>>>, names: seq<Value>, tb: Tables)
    requires |groups| == |names| && |groups| >= 1 && AllBounded(groups, s) && t != Cut3b
    requires PairPartOf(t, s, groups, names, tb).Ok?
    ensures PairPart(PairPartOf(t, s, groups, names, tb).value, s)
  {
    GroupLookupsOk(t, groups, names, tb, 2);
    GroupLookupsValues(t, groups, names, tb, 2);
    ReadyTagged(groups, s, 2);
    PairMaskShape(s, groups);
    CutoffListSpec(t, names, tb.cutoff);
  }

  /** A triplet part that was built is well formed: a fully symmetric mask of `s*s*s` valid group ids. */
  lemma TripletPartShaped(s: nat, groups: seq<seq<seq<int>>>, names: seq<Value>, tb: Tables)
    requires |groups| == |names| && |groups| >= 1 && AllBounded(groups, s)
    requires TripletPartOf(s, groups, names, tb).Ok?
    ensures TripletPart(TripletPartOf(s, groups, names, tb).value, s)
  {
    GroupLookupsOk(Triplet, groups, names, tb, 3);
    GroupLookupsValues(Triplet, groups, names, tb, 3);
    ReadyTagged(groups, s, 3);
    TripletMaskBounds(s, groups);
    TripletMaskSymmetric(s, groups);
  }

  /**
   * When no two groups' elements share a slot, the species mask maps each element's
   * slot to its group and leaves every other slot at `count - 1`.
   */
  lemma SpecieMaskMeaning(groups: seq<seq<Value>>, z: Value -> int)
    requires forall v :: 0 <= z(v) < 118
    requires forall a, b, x, y ::
               (0 <= a < |groups| && 0 <= b < |groups| && 0 <= x < |groups[a]| && 0 <= y < |groups[b]|
                && z(groups[a][x]) == z(groups[b][y])) ==> a == b
    ensures |SpecieMaskOf(groups, z)| == 118
    ensures forall g, x :: 0 <= g < |groups| && 0 <= x < |groups[g]| ==> SpecieMaskOf(groups, z)[z(groups[g][x])] == g
    ensures forall slot :: 0 <= slot < 118 && (forall g, x :: 0 <= g < |groups| && 0 <= x < |groups[g]| ==> z(groups[g][x]) != slot) ==>
              SpecieMaskOf(groups, z)[slot] == |groups| - 1
  {
    var d := |groups| - 1;
    forall g, x | 0 <= g < |groups| && 0 <= x < |groups[g]|
      ensures SpecieMaskOf(groups, z)[z(groups[g][x])] == g
    {
      ApplySpeciesAt(Filled(118, d), z, Tagged(groups), z(groups[g][x]));
      SpeciesOwner(groups, z, z(groups[g][x]), d, g);
    }
    forall slot | 0 <= slot < 118 && (forall g, x :: 0 <= g < |groups| && 0 <= x < |groups[g]| ==> z(groups[g][x]) != slot)
      ensures SpecieMaskOf(groups, z)[slot] == d
    {
      ApplySpeciesAt(Filled(118, d), z, Tagged(groups), slot);
      SpeciesUnowned(groups, z, slot, d);
    }
  }

  /** The species branch of `print_group`: 118 slots at `count - 1`, then each group's elements. */
  method SpecieMask(groups: seq<seq<Value>>, z: Value -> int) returns (m: seq<int>)
    requires forall v :: 0 <= z(v) < 118
    ensures m == SpecieMaskOf(groups, z)
  {
    var a := new int[118](_ => |groups| - 1);
    assert a[..] == Filled(118, |groups| - 1);
    var idt := 0;
    while idt < |groups|
      invariant 0 <= idt <= |groups|
      invariant a[..] == ApplySpecies(Filled(118, |groups| - 1), z, Tagged(groups[..idt]))
    {
      WriteSpecies(a, z, groups[idt], idt);
      TaggedStep(groups, idt);
      ApplySpeciesAppend(Filled(118, |groups| - 1), z, Tagged(groups[..idt]), Tag(groups[idt], idt));
      idt := idt + 1;
    }
    assert groups[..idt] == groups;
    m := a[..];
  }

  /** The two loops of the cutoff list: the presence test over all names, then the reads. */
  method ListCutoffs(t: GroupType, names: seq<Value>, cutoff: map<string, real>) returns (r: Result<seq<real>, Failure>)
    ensures r == CutoffList(t, names, cutoff)
  {
    var diff := false;
    var idt := 0;
    while idt < |names|
      invariant 0 <= idt <= |names|
      invariant forall k :: 0 <= k < idt ==> names[k].Str?
      invariant diff <==> exists k :: 0 <= k < idt && Key(t, names[k].s) in cutoff
    {
      if names[idt].List? {
        return Err(TypeError);
      }
      if Key(t, names[idt].s) in cutoff {
        diff := true;
      }
      idt := idt + 1;
    }
    if !diff {
      return Ok([]);
    }
    var cs: seq<real> := [];
    idt := 0;
    while idt < |names|
      invariant 0 <= idt <= |names|
      invariant CutoffValues(t, names[..idt], cutoff) == Ok(cs)
    {
      assert names[..idt + 1][..idt] == names[..idt];
      var f := Key(t, names[idt].s);
      if f !in cutoff {
        CutoffValuesSpec(t, names, cutoff);
        return Err(KeyError);
      }
      cs := cs + [cutoff[f]];
      idt := idt + 1;
    }
    assert names[..idt] == names;
    r := Ok(cs);
  }

  /** The mask holds the writes of the first `k` groups over the default `d`. */
  predicate PairsWritten(m: seq<int>, s: nat, d: int, groups: seq<seq<seq<int>>>, k: nat)
    requires k <= |groups|
  {
    |m| == Square(s) && Ready(Tagged(groups[..k]), s, 2) && m == ApplyPairs(Filled(Square(s), d), s, Tagged(groups[..k]))
  }

  predicate TripletsWritten(m: seq<int>, s: nat, d: int, groups: seq<seq<seq<int>>>, k: nat)
    requires k <= |groups|
  {
    |m| == Cube(s) && Ready(Tagged(groups[..k]), s, 3) && m == ApplyTriplets(Filled(Cube(s), d), s, Tagged(groups[..k]))
  }

  /** The inner loop of the pair branch for group `k`: its tuples' slots, or IndexError for a short tuple. */
  method WritePairGroup(a: array<int>, s: nat, d: int, groups: seq<seq<seq<int>>>, k: nat) returns (ok: bool)
    requires k < |groups| && AllBounded(groups, s) && PairsWritten(a[..], s, d, groups, k)
    modifies a
    ensures ok <==> Long(groups[k], 2)
    ensures ok ==> PairsWritten(a[..], s, d, groups, k + 1)
  {
    ok := WritePairs(a, s, groups[k], k);
    if ok {
      TaggedStep(groups, k);
      ApplyPairsAppend(Filled(Square(s), d), s, Tagged(groups[..k]), Tag(groups[k], k));
    }
  }

  /** The inner loop of the triplet branch for group `k`: its tuples' six slots, or IndexError for a short tuple. */
  method WriteTripletGroup(a: array<int>, s: nat, d: int, groups: seq<seq<seq<int>>>, k: nat) returns (ok: bool)
    requires k < |groups| && AllBounded(groups, s) && TripletsWritten(a[..], s, d, groups, k)
    modifies a
    ensures ok <==> Long(groups[k], 3)
    ensures ok ==> TripletsWritten(a[..], s, d, groups, k + 1)
  {
    ok := WriteTriplets(a, s, groups[k], k);
    if ok {
      TaggedStep(groups, k);
      ApplyTripletsAppend(Filled(Cube(s), d), s, Tagged(groups[..k]), Tag(groups[k], k));
    }
  }

  /** One group of the pair loop: its tuples written, then its lookups. */
  method PairStep(a: array<int>, t: GroupType, s: nat, groups: seq<seq<seq<int>>>, names: seq<Value>, tb: Tables, idt: nat,
                  res: Result<Block, Failure>) returns (res': Result<Block, Failure>)
    requires |groups| == |names| && idt < |groups| && AllBounded(groups, s)
    requires res.Ok? && res == GroupLookups(t, groups[..idt], names[..idt], tb, 2)
    requires PairsWritten(a[..], s, |groups| - 1, groups, idt)
    modifies a
    ensures res' == GroupLookups(t, groups[..idt + 1], names[..idt + 1], tb, 2)
    ensures res'.Ok? ==> PairsWritten(a[..], s, |groups| - 1, groups, idt + 1)
  {
    var ok := WritePairGroup(a, s, |groups| - 1, groups, idt);
    GroupLookupsNext(t, groups, names, tb, 2, idt);
    if !ok {
      res' := Err(IndexError);
    } else if t != Cut3b {
      var h := GroupHyps(t, names[idt], tb);
      res' := if h.Err? then Err(h.error) else Ok(Join(res.value, h.value));
    } else {
      res' := res;
    }
  }

  /**
   * The per-group loop of the pair branch of `print_group`: each group's tuples
   * written into both slots of the mask, then (outside `cut3b`) its lookups,
   * stopping at the first failure.
   */
  method PairLoop(a: array<int>, t: GroupType, s: nat, groups: seq<seq<seq<int>>>, names: seq<Value>, tb: Tables) returns (res: Result<Block, Failure>)
    requires |groups| == |names| && |groups| >= 1 && AllBounded(groups, s)
    requires a[..] == Filled(Square(s), |groups| - 1)
    modifies a
    ensures res == GroupLookups(t, groups, names, tb, 2)
    ensures res.Ok? ==> PairsWritten(a[..], s, |groups| - 1, groups, |groups|)
  {
    assert groups[..0] == [];
    res := Ok(Block([], [], []));
    var idt := 0;
    while idt < |groups| && res.Ok?
      invariant 0 <= idt <= |groups|
      invariant res == GroupLookups(t, groups[..idt], names[..idt], tb, 2)
      invariant a.Length == Square(s)
      invariant res.Ok? ==> PairsWritten(a[..], s, |groups| - 1, groups, idt)
    {
      res := PairStep(a, t, s, groups, names, tb, idt, res);
      idt := idt + 1;
    }
    GroupLookupsDone(t, groups, names, tb, 2, idt);
  }

  /**
   * The pair branch of `print_group` for one type with at least one group: the mask
   * array filled with `count - 1`, then the per-group loop, then the cutoff list.
   */
  method BuildPairs(t: GroupType, s: nat, groups: seq<seq<seq<int>>>, names: seq<Value>, tb: Tables) returns (r: Result<Part, Failure>)
    requires |groups| == |names| && |groups| >= 1 && AllBounded(groups, s)
    ensures r == PairPartOf(t, s, groups, names, tb)
  {
    var a := new int[Square(s)](_ => |groups| - 1);
    assert a[..] == Filled(Square(s), |groups| - 1);
    var res := PairLoop(a, t, s, groups, names, tb);
    assert groups[..|groups|] == groups;
    if res.Err? {
      return Err(res.error);
    }
    var cs := ListCutoffs(t, names, tb.cutoff);
    r := if cs.Err? then Err(cs.error) else Ok(Part(|groups|, a[..], res.value, cs.value));
  }

  /** One group of the triplet loop: its tuples written, then its lookups. */
  method TripletStep(a: array<int>, s: nat, groups: seq<seq<seq<int>>>, names: seq<Value>, tb: Tables, idt: nat,
                  res: Result<Block, Failure>) returns (res': Result<Block, Failure>)
    requires |groups| == |names| && idt < |groups| && AllBounded(groups, s)
    requires res.Ok? && res == GroupLookups(Triplet, groups[..idt], names[..idt], tb, 3)
    requires TripletsWritten(a[..], s, |groups| - 1, groups, idt)
    modifies a
    ensures res' == GroupLookups(Triplet, groups[..idt + 1], names[..idt + 1], tb, 3)
    ensures res'.Ok? ==> TripletsWritten(a[..], s, |groups| - 1, groups, idt + 1)
  {
    var ok := WriteTripletGroup(a, s, |groups| - 1, groups, idt);
    GroupLookupsNext(Triplet, groups, names, tb, 3, idt);
    if !ok {
      res' := Err(IndexError);
    } else {
      var h := GroupHyps(Triplet, names[idt], tb);
      res' := if h.Err? then Err(h.error) else Ok(Join(res.value, h.value));
    }
  }

  /**
   * The per-group loop of the triplet branch of `print_group`: each group's tuples
   * written into all six slots of the mask, then its lookups, stopping at the first
   * failure.
   */
  method TripletLoop(a: array<int>, s: nat, groups: seq<seq<seq<int>>>, names: seq<Value>, tb: Tables) returns (res: Result<Block, Failure>)
    requires |groups| == |names| && |groups| >= 1 && AllBounded(groups, s)
    requires a[..] == Filled(Cube(s), |groups| - 1)
    modifies a
    ensures res == GroupLookups(Triplet, groups, names, tb, 3)
    ensures res.Ok? ==> TripletsWritten(a[..], s, |groups| - 1, groups, |groups|)
  {
    assert groups[..0] == [];
    res := Ok(Block([], [], []));
    var idt := 0;
    while idt < |groups| && res.Ok?
      invariant 0 <= idt <= |groups|
      invariant res == GroupLookups(Triplet, groups[..idt], names[..idt], tb, 3)
      invariant a.Length == Cube(s)
      invariant res.Ok? ==> TripletsWritten(a[..], s, |groups| - 1, groups, idt)
    {
      res := TripletStep(a, s, groups, names, tb, idt, res);
      idt := idt + 1;
    }
    GroupLookupsDone(Triplet, groups, names, tb, 3, idt);
  }

  /**
   * The triplet branch of `print_group` with at least one group: the mask array
   * filled with `count - 1`, then the per-group loop.
   */
  method BuildTriplets(s: nat, groups: seq<seq<seq<int>>>, names: seq<Value>, tb: Tables) returns (r: Result<Part, Failure>)
    requires |groups| == |names| && |groups| >= 1 && AllBounded(groups, s)
    ensures r == TripletPartOf(s, groups, names, tb)
  {
    var a := new int[Cube(s)](_ => |groups| - 1);
    assert a[..] == Filled(Cube(s), |groups| - 1);
    var res := TripletLoop(a, s, groups, names, tb);
    assert groups[..|groups|] == groups;
    if res.Err? {
      return Err(res.error);
    }
    r := Ok(Part(|groups|, a[..], res.value, []));
  }
}
