/**
 * The two validators of a `hyps_mask` dictionary: `check_instantiation`, which
 * checks every mask's shape, bounds and symmetry, the noise flag and the cutoff
 * counts, and fills in a default many-body mask; and `check_matching`, which checks
 * the dictionary against a hyperparameter vector and the list of cutoffs.
 */
module MaskCheck {
  import opened Wrappers
  import opened MaskTypes
  import opened MaskIndex
  import opened HypsVector
  import opened MaskDict

  lemma SquareCube(s: nat)
    ensures Square(s) == s * s && Cube(s) == s * s * s
  {
    TimesIsProduct(s, s);
    TimesIsProduct(s * s, s);
  }

  /** `npmax(mask) < n` for a non-empty mask. */
  predicate MaxBelow(m: seq<int>, n: int) {
    forall k :: 0 <= k < |m| ==> m[k] < n
  }

  // ---- symmetry of the pair masks ----

  /** The slots of `(t2, t)` and `(t, t2)` agree: `mask[t*s + t2] == mask[t2*s + t]`. */
  predicate PairCell(m: seq<int>, s: nat, t: nat, t2: nat)
    requires |m| == Square(s) && t < s && t2 < s
  {
    Slot2Bounds(t2, t, s, s);
    Slot2Bounds(t, t2, s, s);
    m[Slot2(t2, t, s)] == m[Slot2(t, t2, s)]
  }

  /** What the validator's loops check: the cells with `t <= t2`. */
  predicate PairSymmetric(m: seq<int>, s: nat)
    requires |m| == Square(s)
  {
    forall t, t2 :: 0 <= t <= t2 < s ==> PairCell(m, s, t, t2)
  }

  /** Checking the upper triangle is checking every pair. */
  lemma PairSymmetricAll(m: seq<int>, s: nat)
    requires |m| == Square(s)
    ensures PairSymmetric(m, s) <==> forall i, j :: 0 <= i < s && 0 <= j < s ==> PairCell(m, s, i, j)
  {
    if PairSymmetric(m, s) {
      forall i, j | 0 <= i < s && 0 <= j < s
        ensures PairCell(m, s, i, j)
      {
        if j < i {
          assert PairCell(m, s, j, i);
        }
      }
    }
  }

  // ---- symmetry of the triplet mask ----

  /**
   * The cell `(t, t2, t3)`: the slot `t*s*s + t2*s + t3` agrees with the slots of the
   * five other orderings of the three indices.
   */
  predicate TripletCell(m: seq<int>, s: nat, t: nat, t2: nat, t3: nat)
    requires |m| == Cube(s) && t < s && t2 < s && t3 < s
  {
    Slot3Bounds(t3, t2, t, s);
    Slot3Bounds(t2, t3, t, s);
    Slot3Bounds(t3, t, t2, s);
    Slot3Bounds(t, t3, t2, s);
    Slot3Bounds(t2, t, t3, s);
    Slot3Bounds(t, t2, t3, s);
    var base := m[Slot3(t3, t2, t, s)];
    base == m[Slot3(t2, t3, t, s)] && base == m[Slot3(t3, t, t2, s)] && base == m[Slot3(t, t3, t2, s)]
    && base == m[Slot3(t2, t, t3, s)] && base == m[Slot3(t, t2, t3, s)]
  }

  /** What the validator's loops check: the cells with `t <= t2 <= t3`. */
  predicate TripletSymmetric(m: seq<int>, s: nat)
    requires |m| == Cube(s)
  {
    forall t, t2, t3 :: 0 <= t <= t2 <= t3 < s ==> TripletCell(m, s, t, t2, t3)
  }

  /** The slot of `(i, j, k)` agrees with those of `(j, i, k)` and `(i, k, j)`. */
  predicate Swaps(m: seq<int>, s: nat, i: nat, j: nat, k: nat)
    requires |m| == Cube(s) && i < s && j < s && k < s
  {
    Slot3Bounds(i, j, k, s);
    Slot3Bounds(j, i, k, s);
    Slot3Bounds(i, k, j, s);
    m[Slot3(i, j, k, s)] == m[Slot3(j, i, k, s)] && m[Slot3(i, j, k, s)] == m[Slot3(i, k, j, s)]
  }

  /** Invariance under the two adjacent swaps, hence under every permutation. */
  predicate FullySymmetric(m: seq<int>, s: nat)
    requires |m| == Cube(s)
  {
    forall i, j, k :: 0 <= i < s && 0 <= j < s && 0 <= k < s ==> Swaps(m, s, i, j, k)
  }

  /**
   * Checking the sorted cells is checking full symmetry: the validator accepts a
   * triplet mask exactly when it takes one value over all orderings of each triplet.
   */
  lemma TripletSymmetricIff(m: seq<int>, s: nat)
    requires |m| == Cube(s)
    ensures TripletSymmetric(m, s) <==> FullySymmetric(m, s)
  {
    if TripletSymmetric(m, s) {
      forall i, j, k | 0 <= i < s && 0 <= j < s && 0 <= k < s
        ensures Swaps(m, s, i, j, k)
      {
        SortedCell(m, s, i, j, k);
      }
    }
    if FullySymmetric(m, s) {
      forall t, t2, t3 | 0 <= t <= t2 <= t3 < s
        ensures TripletCell(m, s, t, t2, t3)
      {
        CellFromSwaps(m, s, t, t2, t3);
      }
    }
  }

  /** The swaps at one triplet follow from the cell of its sorted indices. */
  lemma SortedCell(m: seq<int>, s: nat, i: nat, j: nat, k: nat)
    requires |m| == Cube(s) && TripletSymmetric(m, s) && i < s && j < s && k < s
    ensures Swaps(m, s, i, j, k)
  {
    if i <= j <= k {
      assert TripletCell(m, s, i, j, k);
    } else if i <= k <= j {
      assert TripletCell(m, s, i, k, j);
    } else if j <= i <= k {
      assert TripletCell(m, s, j, i, k);
    } else if j <= k <= i {
      assert TripletCell(m, s, j, k, i);
    } else if k <= i <= j {
      assert TripletCell(m, s, k, i, j);
    } else {
      assert TripletCell(m, s, k, j, i);
    }
  }

  /** A cell follows from the swaps at three of its orderings. */
  lemma CellFromSwaps(m: seq<int>, s: nat, t: nat, t2: nat, t3: nat)
    requires |m| == Cube(s) && FullySymmetric(m, s) && t < s && t2 < s && t3 < s
    ensures TripletCell(m, s, t, t2, t3)
  {
    assert Swaps(m, s, t3, t2, t);
    assert Swaps(m, s, t2, t3, t);
    assert Swaps(m, s, t3, t, t2);
    assert Swaps(m, s, t, t3, t2);
  }

  // ---- check_instantiation ----

  /**
   * The checks on a pair-type count and mask (`nbond` or `nmb`): the count must be
   * positive, the mask present and non-empty, its entries below the count, its
   * length `nspecie**2` and its cells with `t <= t2` symmetric.
   */
  function PairCheck(n: Option<int>, mask: Option<seq<int>>, s: int): Result<(), Failure> {
    if n.None? then Ok(())
    else if n.value <= 0 then Err(AssertionError)
    else if mask.None? then Err(KeyError)
    else if |mask.value| == 0 then Err(ValueError)
    else if !MaxBelow(mask.value, n.value) || |mask.value| != s * s then Err(AssertionError)
    else if s < 0 then Ok(())
    else
      SquareCube(s);
      if PairSymmetric(mask.value, s) then Ok(()) else Err(AssertionError)
  }

  /** The same checks on `ntriplet` and `triplet_mask`, of length `nspecie**3`. */
  function TripletCheck(n: Option<int>, mask: Option<seq<int>>, s: int): Result<(), Failure> {
    if n.None? then Ok(())
    else if n.value <= 0 then Err(AssertionError)
    else if mask.None? then Err(KeyError)
    else if |mask.value| == 0 then Err(ValueError)
    else if !MaxBelow(mask.value, n.value) || |mask.value| != s * s * s then Err(AssertionError)
    else if s < 0 then Ok(())
    else
      SquareCube(s);
      if TripletSymmetric(mask.value, s) then Ok(()) else Err(AssertionError)
  }

  /**
   * With a map, the noise flag must be off when the noise position is not mapped;
   * without one it must be on.
   */
  function NoiseCheck(h: HypsMask): Result<(), Failure> {
    if h.mapping.Some? then
      if h.original.None? then Err(AssertionError)
      else if |h.original.value| - 1 in h.mapping.value then Ok(())
      else if h.trainNoise.None? then Err(KeyError)
      else if h.trainNoise.value then Err(AssertionError)
      else Ok(())
    else if h.trainNoise.None? then Err(KeyError)
    else if !h.trainNoise.value then Err(AssertionError)
    else Ok(())
  }

  /** A cutoff list, when given, has one entry per group. */
  function CutoffCount(c: Option<seq<real>>, n: int): Result<(), Failure> {
    if c.Some? && |c.value| != n then Err(AssertionError) else Ok(())
  }

  /** The first failing check, in order. */
  function FirstError(checks: seq<Result<(), Failure>>): (r: Result<(), Failure>)
    ensures r.Ok? <==> forall i :: 0 <= i < |checks| ==> checks[i].Ok?
    ensures r.Err? ==> r in checks
    ensures r.Ok? ==> r == Ok(())
  {
    if checks == [] then Ok(())
    else if checks[0].Err? then checks[0]
    else
      var r := FirstError(checks[1..]);
      assert forall i :: 1 <= i < |checks| ==> checks[i] == checks[1..][i - 1];
      r
  }

  /** The many-body count the checks use: `nmb`, or 1 when absent. */
  function MbCount(h: HypsMask): int {
    if h.nmb.Some? then h.nmb.value else 1
  }

  function BondCount(h: HypsMask): int {
    if h.nbond.Some? then h.nbond.value else 0
  }

  function TripletCount(h: HypsMask): int {
    if h.ntriplet.Some? then h.ntriplet.value else 0
  }

  /** The dictionary as the validator leaves it: a zero many-body mask when `nmb` is absent. */
  function Normalised(h: HypsMask): HypsMask
    requires h.nspecie.Some?
  {
    var len := h.nspecie.value * h.nspecie.value;
    if h.nmb.Some? then h else h.(mbMask := Some(Filled(if len < 0 then 0 else len, 0)))
  }

  /** `check_instantiation`: the dictionary, normalised, or the first failed check. */
  function Instantiation(h: HypsMask): Result<HypsMask, Failure> {
    if h.nspecie.None? || h.specieMask.None? then Err(AssertionError)
    else
      var s := h.nspecie.value;
      var checks := [
        PairCheck(h.nbond, h.bondMask, s),
        TripletCheck(h.ntriplet, h.tripletMask, s),
        PairCheck(h.nmb, h.mbMask, s),
        NoiseCheck(h),
        CutoffCount(h.cutoff2b, BondCount(h)),
        if h.cutoff3b.Some? then Err(NameError) else Ok(()),
        CutoffCount(h.cutoffMb, MbCount(h))];
      var first := FirstError(checks);
      if first.Err? then Err(first.error) else Ok(Normalised(h))
  }

  /**
   * What an accepted dictionary guarantees: every given mask has the length of its
   * type, holds group ids below its count, and is symmetric under every
   * permutation of its indices; the noise flag agrees with the map; each given
   * cutoff list has one entry per group; and no three-body cutoff list is given.
   */
  lemma Accepted(h: HypsMask)
    requires Instantiation(h).Ok? && h.nspecie.Some? && h.nspecie.value >= 0
    ensures var s: nat := h.nspecie.value;
      && (h.nbond.Some? ==>
            h.nbond.value > 0 && h.bondMask.Some? && |h.bondMask.value| == Square(s)
            && MaxBelow(h.bondMask.value, h.nbond.value)
            && forall i, j :: 0 <= i < s && 0 <= j < s ==> PairCell(h.bondMask.value, s, i, j))
      && (h.nmb.Some? ==>
            h.nmb.value > 0 && h.mbMask.Some? && |h.mbMask.value| == Square(s)
            && MaxBelow(h.mbMask.value, h.nmb.value)
            && forall i, j :: 0 <= i < s && 0 <= j < s ==> PairCell(h.mbMask.value, s, i, j))
      && (h.ntriplet.Some? ==>
            h.ntriplet.value > 0 && h.tripletMask.Some? && |h.tripletMask.value| == Cube(s)
            && MaxBelow(h.tripletMask.value, h.ntriplet.value)
            && FullySymmetric(h.tripletMask.value, s))
    ensures h.mapping.Some? ==>
              h.original.Some? && (|h.original.value| - 1 !in h.mapping.value ==> h.trainNoise == Some(false))
    ensures h.mapping.None? ==> h.trainNoise == Some(true)
    ensures h.cutoff2b.Some? ==> |h.cutoff2b.value| == BondCount(h)
    ensures h.cutoffMb.Some? ==> |h.cutoffMb.value| == MbCount(h)
    ensures h.cutoff3b.None?
  {
    var s: nat := h.nspecie.value;
    var checks := [
      PairCheck(h.nbond, h.bondMask, s),
      TripletCheck(h.ntriplet, h.tripletMask, s),
      PairCheck(h.nmb, h.mbMask, s),
      NoiseCheck(h),
      CutoffCount(h.cutoff2b, BondCount(h)),
      if h.cutoff3b.Some? then Err(NameError) else Ok(()),
      CutoffCount(h.cutoffMb, MbCount(h))];
    assert FirstError(checks).Ok?;
    assert checks[0].Ok? && checks[1].Ok? && checks[2].Ok? && checks[3].Ok?;
    assert checks[4].Ok? && checks[5].Ok? && checks[6].Ok?;
    SquareCube(s);
    if h.nbond.Some? {
      PairSymmetricAll(h.bondMask.value, s);
    }
    if h.nmb.Some? {
      PairSymmetricAll(h.mbMask.value, s);
    }
    if h.ntriplet.Some? {
      TripletSymmetricIff(h.tripletMask.value, s);
    }
  }

  /** The validator's loops over the cells `t <= t2` of a pair mask. */
  method CheckPairSymmetry(m: seq<int>, s: nat) returns (ok: bool)
    requires |m| == Square(s)
    ensures ok <==> PairSymmetric(m, s)
  {
    var t := 0;
    while t < s
      invariant 0 <= t <= s
      invariant forall a, b :: 0 <= a < t && a <= b < s ==> PairCell(m, s, a, b)
    {
      var t2 := t;
      while t2 < s
        invariant t <= t2 <= s
        invariant forall b :: t <= b < t2 ==> PairCell(m, s, t, b)
      {
        Slot2Bounds(t2, t, s, s);
        Slot2Bounds(t, t2, s, s);
        if m[Slot2(t2, t, s)] != m[Slot2(t, t2, s)] {
          assert !PairCell(m, s, t, t2);
          return false;
        }
        t2 := t2 + 1;
      }
      t := t + 1;
    }
    return true;
  }

  /** The validator's loops over the cells `t <= t2 <= t3` of the triplet mask. */
  method CheckTripletSymmetry(m: seq<int>, s: nat) returns (ok: bool)
    requires |m| == Cube(s)
    ensures ok <==> TripletSymmetric(m, s)
  {
    var t := 0;
    while t < s
      invariant 0 <= t <= s
      invariant forall a, b, c :: 0 <= a < t && a <= b <= c < s ==> TripletCell(m, s, a, b, c)
    {
      var t2 := t;
      while t2 < s
        invariant t <= t2 <= s
        invariant forall b, c :: t <= b < t2 && b <= c < s ==> TripletCell(m, s, t, b, c)
      {
        var t3 := t2;
        while t3 < s
          invariant t2 <= t3 <= s
          invariant forall c :: t2 <= c < t3 ==> TripletCell(m, s, t, t2, c)
        {
          if !TripletCell(m, s, t, t2, t3) {
            return false;
          }
          t3 := t3 + 1;
        }
        t2 := t2 + 1;
      }
      t := t + 1;
    }
    return true;
  }

  /** `PairCheck`, with the symmetry loops run. */
  method CheckPairMask(n: Option<int>, mask: Option<seq<int>>, s: int) returns (r: Result<(), Failure>)
    ensures r == PairCheck(n, mask, s)
  {
    if n.None? {
      return Ok(());
    }
    if n.value <= 0 {
      return Err(AssertionError);
    }
    if mask.None? {
      return Err(KeyError);
    }
    var m := mask.value;
    if |m| == 0 {
      return Err(ValueError);
    }
    if !MaxBelow(m, n.value) || |m| != s * s {
      return Err(AssertionError);
    }
    if s < 0 {
      return Ok(());
    }
    SquareCube(s);
    var ok := CheckPairSymmetry(m, s);
    r := if ok then Ok(()) else Err(AssertionError);
  }

  /** `TripletCheck`, with the symmetry loops run. */
  method CheckTripletMask(n: Option<int>, mask: Option<seq<int>>, s: int) returns (r: Result<(), Failure>)
    ensures r == TripletCheck(n, mask, s)
  {
    if n.None? {
      return Ok(());
    }
    if n.value <= 0 {
      return Err(AssertionError);
    }
    if mask.None? {
      return Err(KeyError);
    }
    var m := mask.value;
    if |m| == 0 {
      return Err(ValueError);
    }
    if !MaxBelow(m, n.value) || |m| != s * s * s {
      return Err(AssertionError);
    }
    if s < 0 {
      return Ok(());
    }
    SquareCube(s);
    var ok := CheckTripletSymmetry(m, s);
    r := if ok then Ok(()) else Err(AssertionError);
  }

  /** `check_instantiation`, running the checks in the source's order. */
  method CheckInstantiation(h: HypsMask) returns (r: Result<HypsMask, Failure>)
    ensures r == Instantiation(h)
  {
    if h.nspecie.None? || h.specieMask.None? {
      return Err(AssertionError);
    }
    var s := h.nspecie.value;
    var bond := CheckPairMask(h.nbond, h.bondMask, s);
    var triplet := CheckTripletMask(h.ntriplet, h.tripletMask, s);
    var mb := CheckPairMask(h.nmb, h.mbMask, s);
    var checks := [
      bond, triplet, mb, NoiseCheck(h), CutoffCount(h.cutoff2b, BondCount(h)),
      if h.cutoff3b.Some? then Err(NameError) else Ok(()),
      CutoffCount(h.cutoffMb, MbCount(h))];
    var first := FirstError(checks);
    r := if first.Err? then Err(first.error) else Ok(Normalised(h));
  }

  // ---- check_matching ----

  /** `cutoffs[0] > npmax(c)` for a given cutoff list `c`. */
  function CutoffBelow(c: Option<seq<real>>, cutoffs: seq<real>): Result<(), Failure> {
    if c.None? then Ok(())
    else if cutoffs == [] then Err(IndexError)
    else if c.value == [] then Err(ValueError)
    else if forall k :: 0 <= k < |c.value| ==> c.value[k] < cutoffs[0] then Ok(())
    else Err(AssertionError)
  }

  /**
   * `check_matching`: with at most two cutoffs only the bond and triplet groups
   * count, otherwise the many-body groups too (1 when `nmb` is absent); the vector
   * (`original` when there is a map) must hold two entries per counted group plus
   * the noise, the map as many entries as `hyps`; and the first cutoff must exceed
   * every cutoff the dictionary lists.
   */
  function Matching(h: HypsMask, hyps: seq<real>, cutoffs: seq<real>): Result<(), Failure> {
    var n2b, n3b, nmb := BondCount(h), TripletCount(h), MbCount(h);
    var counted := if |cutoffs| <= 2 then n2b + n3b else n2b + n3b + nmb;
    var expected := 2 * counted + 1;
    var lengths :=
      if counted <= 0 then Err(AssertionError)
      else if h.mapping.Some? then
        if h.original.None? then Err(KeyError)
        else if expected != |h.original.value| || |h.mapping.value| != |hyps| then Err(AssertionError)
        else Ok(())
      else if expected != |hyps| then Err(AssertionError)
      else Ok(());
    FirstError([lengths, CutoffBelow(h.cutoff2b, cutoffs), CutoffBelow(h.cutoff3b, cutoffs), CutoffBelow(h.cutoffMb, cutoffs)])
  }

  // ---- the generated dictionary against the validators ----

  /** A pair-type part as `print_group` builds it over `s` species groups. */
  predicate PairPart(p: Part, s: nat) {
    p.count >= 1 && |p.mask| == Square(s)
    && (forall k :: 0 <= k < |p.mask| ==> 0 <= p.mask[k] < p.count)
    && (forall i, j :: 0 <= i < s && 0 <= j < s ==> PairCell(p.mask, s, i, j))
    && Shaped(p.block) && |p.block.sig| == p.count
    && (p.cutoffs == [] || |p.cutoffs| == p.count)
  }

  /** The triplet part as `print_group` builds it: no cutoff list. */
  predicate TripletPart(p: Part, s: nat) {
    p.count >= 1 && |p.mask| == Cube(s)
    && (forall k :: 0 <= k < |p.mask| ==> 0 <= p.mask[k] < p.count)
    && FullySymmetric(p.mask, s)
    && Shaped(p.block) && |p.block.sig| == p.count
    && p.cutoffs == []
  }

  predicate PairPartOpt(p: Option<Part>, s: nat) {
    p.Some? ==> PairPart(p.value, s)
  }

  predicate TripletPartOpt(p: Option<Part>, s: nat) {
    p.Some? ==> TripletPart(p.value, s)
  }

  lemma {:induction false} BlocksShaped(bond: Option<Part>, triplet: Option<Part>, mb: Option<Part>, s: nat)
    requires PairPartOpt(bond, s) && TripletPartOpt(triplet, s) && PairPartOpt(mb, s)
    ensures AllShaped(Blocks(bond, triplet, mb))
    ensures GroupCount(Blocks(bond, triplet, mb)) ==
              (if bond.Some? then bond.value.count else 0) + (if triplet.Some? then triplet.value.count else 0)
              + (if mb.Some? then mb.value.count else 0)
  {
    var bs := Blocks(bond, triplet, mb);
    GroupCountAppend(Present(bond), Present(triplet));
    GroupCountAppend(Present(bond) + Present(triplet), Present(mb));
    GroupCountOne(Present(bond));
    GroupCountOne(Present(triplet));
    GroupCountOne(Present(mb));
  }

  lemma GroupCountOne(bs: seq<Block>)
    requires |bs| <= 1
    ensures GroupCount(bs) == if bs == [] then 0 else |bs[0].sig|
  {
    if bs != [] {
      assert bs[1..] == [];
    }
  }

  lemma {:induction false} GroupCountAppend(a: seq<Block>, b: seq<Block>)
    ensures GroupCount(a + b) == GroupCount(a) + GroupCount(b)
    decreases |a|
  {
    if a == [] {
      assert a + b == b;
    } else {
      assert (a + b)[1..] == a[1..] + b;
      GroupCountAppend(a[1..], b);
    }
  }

  /** A pair part, if any, passes the pair checks. */
  lemma PairPartChecked(p: Option<Part>, s: nat)
    requires PairPartOpt(p, s) && s >= 1
    ensures PairCheck(CountOf(p), MaskOf(p), s) == Ok(())
  {
    if p.Some? {
      SquareCube(s);
      assert Square(s) > 0 by {
        Slot2Bounds(0, 0, s, s);
      }
      PairSymmetricAll(p.value.mask, s);
    }
  }

  /** The triplet part, if any, passes the triplet checks. */
  lemma TripletPartChecked(p: Option<Part>, s: nat)
    requires TripletPartOpt(p, s) && s >= 1
    ensures TripletCheck(CountOf(p), MaskOf(p), s) == Ok(())
  {
    if p.Some? {
      SquareCube(s);
      assert Cube(s) > 0 by {
        Slot3Bounds(0, 0, 0, s);
      }
      TripletSymmetricIff(p.value.mask, s);
    }
  }

  /** The checks pass on a dictionary holding shaped parts, a mapped noise position and no three-body cutoffs. */
  lemma AcceptedWhen(h: HypsMask, s: nat, bond: Option<Part>, triplet: Option<Part>, mb: Option<Part>)
    requires PairPartOpt(bond, s) && TripletPartOpt(triplet, s) && PairPartOpt(mb, s) && s >= 1
    requires h.nspecie == Some(s as int) && h.specieMask.Some?
    requires h.nbond == CountOf(bond) && h.bondMask == MaskOf(bond)
    requires h.ntriplet == CountOf(triplet) && h.tripletMask == MaskOf(triplet)
    requires h.nmb == CountOf(mb) && h.mbMask == MaskOf(mb)
    requires h.trainNoise == Some(true) && h.original.Some?
    requires h.mapping.Some? ==> |h.original.value| - 1 in h.mapping.value
    requires h.cutoff2b == CutoffsOf(bond) && h.cutoff3b.None? && h.cutoffMb == CutoffsOf(mb)
    ensures Instantiation(h) == Ok(Normalised(h))
  {
    PairPartChecked(bond, s);
    TripletPartChecked(triplet, s);
    PairPartChecked(mb, s);
    var checks := [
      PairCheck(h.nbond, h.bondMask, s),
      TripletCheck(h.ntriplet, h.tripletMask, s),
      PairCheck(h.nmb, h.mbMask, s),
      NoiseCheck(h),
      CutoffCount(h.cutoff2b, BondCount(h)),
      if h.cutoff3b.Some? then Err(NameError) else Ok(()),
      CutoffCount(h.cutoffMb, MbCount(h))];
    assert checks[0] == Ok(()) && checks[1] == Ok(()) && checks[2] == Ok(());
    assert checks[3] == Ok(());
    assert checks[4] == Ok(()) && checks[5] == Ok(()) && checks[6] == Ok(());
  }

  /**
   * A dictionary built from parts shaped as `print_group` shapes them, with a single
   * noise value whose flag is on and no three-body cutoff list, is built and passes
   * `check_instantiation`.
   */
  lemma GeneratedAccepted(nspecie: nat, specieMask: seq<int>, bond: Option<Part>, triplet: Option<Part>, mb: Option<Part>,
                          cut3b: Option<Part>, noise: seq<real>)
    requires PairPartOpt(bond, nspecie) && TripletPartOpt(triplet, nspecie) && PairPartOpt(mb, nspecie)
    requires nspecie >= 1 && |noise| == 1 && Blocks(bond, triplet, mb) != []
    requires cut3b.None? || cut3b.value.cutoffs == []
    ensures BuildDict(nspecie, specieMask, bond, triplet, mb, cut3b, noise, true).Ok?
    ensures var h := BuildDict(nspecie, specieMask, bond, triplet, mb, cut3b, noise, true).value;
      Instantiation(h) == Ok(Normalised(h))
  {
    var bs := Blocks(bond, triplet, mb);
    BlocksShaped(bond, triplet, mb, nspecie);
    VectorBuilt(bs, noise);
    var h := BuildDict(nspecie, specieMask, bond, triplet, mb, cut3b, noise, true).value;
    AcceptedWhen(h, nspecie, bond, triplet, mb);
  }

  /** A three-body cutoff list in a built dictionary makes `check_instantiation` fail. */
  lemma Cut3bRejected(nspecie: int, specieMask: seq<int>, bond: Option<Part>, triplet: Option<Part>, mb: Option<Part>,
                      cut3b: Option<Part>, noise: seq<real>, noiseOpt: bool)
    requires BuildDict(nspecie, specieMask, bond, triplet, mb, cut3b, noise, noiseOpt).Ok?
    requires cut3b.Some? && cut3b.value.cutoffs != []
    ensures Instantiation(BuildDict(nspecie, specieMask, bond, triplet, mb, cut3b, noise, noiseOpt).value).Err?
  {
    var h := BuildDict(nspecie, specieMask, bond, triplet, mb, cut3b, noise, noiseOpt).value;
    assert h.cutoff3b.Some?;
    if h.nspecie.Some? && h.specieMask.Some? {
      var s := h.nspecie.value;
      var checks := [
        PairCheck(h.nbond, h.bondMask, s),
        TripletCheck(h.ntriplet, h.tripletMask, s),
        PairCheck(h.nmb, h.mbMask, s),
        NoiseCheck(h),
        CutoffCount(h.cutoff2b, BondCount(h)),
        if h.cutoff3b.Some? then Err(NameError) else Ok(()),
        CutoffCount(h.cutoffMb, MbCount(h))];
      assert checks[5].Err?;
    }
  }

  /** Every cutoff a part lists is below the first general cutoff. */
  predicate CutoffsBelow(p: Option<Part>, cutoffs: seq<real>) {
    p.Some? && p.value.cutoffs != [] ==>
      cutoffs != [] && forall k :: 0 <= k < |p.value.cutoffs| ==> p.value.cutoffs[k] < cutoffs[0]
  }

  /** The matching checks, on the counts and vector lengths of a built dictionary. */
  lemma MatchedWhen(h: HypsMask, bond: Option<Part>, triplet: Option<Part>, mb: Option<Part>, cut3b: Option<Part>,
                    groups: nat, cutoffs: seq<real>)
    requires h.nbond == CountOf(bond) && h.ntriplet == CountOf(triplet) && h.nmb == CountOf(mb)
    requires groups == (if bond.Some? then bond.value.count else 0) + (if triplet.Some? then triplet.value.count else 0)
                       + (if mb.Some? then mb.value.count else 0)
    requires groups > 0 && h.original.Some? && h.hyps.Some? && |h.original.value| == 2 * groups + 1
    requires h.mapping.None? ==> h.hyps == h.original
    requires h.mapping.Some? ==> |h.mapping.value| == |h.hyps.value|
    requires h.cutoff2b == CutoffsOf(bond) && h.cutoff3b == CutoffsOf(cut3b) && h.cutoffMb == CutoffsOf(mb)
    requires |cutoffs| > 2 <==> mb.Some?
    requires CutoffsBelow(bond, cutoffs) && CutoffsBelow(cut3b, cutoffs) && CutoffsBelow(mb, cutoffs)
    ensures Matching(h, h.hyps.value, cutoffs) == Ok(())
  {
    var counted := if |cutoffs| <= 2 then BondCount(h) + TripletCount(h) else BondCount(h) + TripletCount(h) + MbCount(h);
    assert counted == groups;
    var lengths :=
      if counted <= 0 then Err(AssertionError)
      else if h.mapping.Some? then
        if h.original.None? then Err(KeyError)
        else if 2 * counted + 1 != |h.original.value| || |h.mapping.value| != |h.hyps.value| then Err(AssertionError)
        else Ok(())
      else if 2 * counted + 1 != |h.hyps.value| then Err(AssertionError)
      else Ok(());
    assert lengths == Ok(());
    var checks := [lengths, CutoffBelow(h.cutoff2b, cutoffs), CutoffBelow(h.cutoff3b, cutoffs), CutoffBelow(h.cutoffMb, cutoffs)];
    assert checks[0] == Ok(()) && checks[1] == Ok(());
    assert checks[2] == Ok(()) && checks[3] == Ok(());
    assert Matching(h, h.hyps.value, cutoffs) == FirstError(checks);
  }

  /**
   * A built dictionary matches its own `hyps` when more than two cutoffs are passed
   * exactly when there are many-body groups, and the first cutoff exceeds every
   * listed cutoff.
   */
  lemma GeneratedMatches(nspecie: nat, specieMask: seq<int>, bond: Option<Part>, triplet: Option<Part>, mb: Option<Part>,
                         cut3b: Option<Part>, noise: seq<real>, cutoffs: seq<real>)
    requires PairPartOpt(bond, nspecie) && TripletPartOpt(triplet, nspecie) && PairPartOpt(mb, nspecie)
    requires |noise| == 1 && Blocks(bond, triplet, mb) != []
    requires |cutoffs| > 2 <==> mb.Some?
    requires CutoffsBelow(bond, cutoffs) && CutoffsBelow(cut3b, cutoffs) && CutoffsBelow(mb, cutoffs)
    ensures BuildDict(nspecie, specieMask, bond, triplet, mb, cut3b, noise, true).Ok?
    ensures var h := BuildDict(nspecie, specieMask, bond, triplet, mb, cut3b, noise, true).value;
      Matching(h, h.hyps.value, cutoffs) == Ok(())
  {
    var bs := Blocks(bond, triplet, mb);
    BlocksShaped(bond, triplet, mb, nspecie);
    VectorBuilt(bs, noise);
    VectorLayout(bs, noise, true);
    var h := BuildDict(nspecie, specieMask, bond, triplet, mb, cut3b, noise, true).value;
    assert bond.Some? || triplet.Some? || mb.Some?;
    MatchedWhen(h, bond, triplet, mb, cut3b, GroupCount(bs), cutoffs);
  }

  /** With `nmb` absent and more than two cutoffs, the counted length overshoots the vector by two. */
  lemma MismatchWhen(h: HypsMask, bond: Option<Part>, triplet: Option<Part>, groups: nat, cutoffs: seq<real>)
    requires h.nbond == CountOf(bond) && h.ntriplet == CountOf(triplet) && h.nmb.None?
    requires groups == (if bond.Some? then bond.value.count else 0) + (if triplet.Some? then triplet.value.count else 0)
    requires h.original.Some? && h.hyps.Some? && |h.original.value| == 2 * groups + 1
    requires h.mapping.None? ==> h.hyps == h.original
    requires |cutoffs| > 2
    ensures Matching(h, h.hyps.value, cutoffs) == Err(AssertionError)
  {
    var counted := BondCount(h) + TripletCount(h) + MbCount(h);
    assert counted == groups + 1;
    assert 2 * counted + 1 != |h.original.value|;
    assert h.mapping.None? ==> 2 * counted + 1 != |h.hyps.value|;
  }

  /**
   * Without many-body groups, `nmb` defaults to 1, so a built dictionary never
   * matches when more than two cutoffs are passed.
   */
  lemma MbDefaultMismatch(nspecie: nat, specieMask: seq<int>, bond: Option<Part>, triplet: Option<Part>,
                          cut3b: Option<Part>, noise: seq<real>, cutoffs: seq<real>)
    requires PairPartOpt(bond, nspecie) && TripletPartOpt(triplet, nspecie)
    requires |noise| == 1 && Blocks(bond, triplet, None) != [] && |cutoffs| > 2
    ensures BuildDict(nspecie, specieMask, bond, triplet, None, cut3b, noise, true).Ok?
    ensures var h := BuildDict(nspecie, specieMask, bond, triplet, None, cut3b, noise, true).value;
      Matching(h, h.hyps.value, cutoffs) == Err(AssertionError)
  {
    var bs := Blocks(bond, triplet, None);
    BlocksShaped(bond, triplet, None, nspecie);
    VectorBuilt(bs, noise);
    VectorLayout(bs, noise, true);
    var h := BuildDict(nspecie, specieMask, bond, triplet, None, cut3b, noise, true).value;
    MismatchWhen(h, bond, triplet, GroupCount(bs), cutoffs);
  }
}
