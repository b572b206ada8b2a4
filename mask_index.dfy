/**
 * The flattened index masks `print_group` fills: a 118-slot species mask, s*s pair
 * masks (bond, cut3b, many-body) and an s*s*s triplet mask, where `s` is the number
 * of species groups. Each mask starts at `count - 1` and is overwritten, tuple by
 * tuple, with the id of the group the tuple belongs to. The writes are specified as
 * folds over the tagged tuples, and the lemmas say what a slot ends up holding.
 */
module MaskIndex {
  import opened MaskTypes

  /**
   * `j * s`, spelled out as repeated addition so that the solver reasons about the
   * slot arithmetic linearly; `TimesIsProduct` says it is the product.
   */
  function Times(j: nat, s: nat): nat {
    if j == 0 then 0 else Times(j - 1, s) + s
  }

  lemma {:induction false} TimesIsProduct(j: nat, s: nat)
    ensures Times(j, s) == j * s
  {
    if j > 0 {
      TimesIsProduct(j - 1, s);
    }
  }

  lemma {:induction false} TimesMono(j: nat, j2: nat, s: nat)
    requires j <= j2
    ensures Times(j, s) <= Times(j2, s)
    decreases j2
  {
    if j < j2 {
      TimesMono(j, j2 - 1, s);
    }
  }

  /** `s**2` and `s**3`, the lengths of the pair and triplet masks. */
  function Square(s: nat): nat {
    Times(s, s)
  }

  function Cube(s: nat): nat {
    Times(Square(s), s)
  }

  /** The slot of the pair `(i, j)`: `i + j*s`. */
  function Slot2(i: nat, j: nat, s: nat): nat {
    i + Times(j, s)
  }

  /** The slot of the triplet `(i, j, k)`: `i + j*s + k*s*s`. */
  function Slot3(i: nat, j: nat, k: nat, s: nat): nat {
    Slot2(i, Slot2(j, k, s), s)
  }

  /** A pair with `i < s` and `j < m` lands below `m*s`. */
  lemma Slot2Bounds(i: nat, j: nat, s: nat, m: nat)
    requires i < s && j < m
    ensures Slot2(i, j, s) < Times(m, s)
  {
    TimesMono(j + 1, m, s);
  }

  /** Distinct pairs land in distinct slots. */
  lemma Slot2Unique(i: nat, j: nat, i2: nat, j2: nat, s: nat)
    requires i < s && i2 < s
    requires Slot2(i, j, s) == Slot2(i2, j2, s)
    ensures i == i2 && j == j2
  {
    if j < j2 {
      TimesMono(j + 1, j2, s);
    } else if j2 < j {
      TimesMono(j2 + 1, j, s);
    }
  }

  lemma Slot3Bounds(i: nat, j: nat, k: nat, s: nat)
    requires i < s && j < s && k < s
    ensures Slot3(i, j, k, s) < Cube(s)
  {
    Slot2Bounds(j, k, s, s);
    Slot2Bounds(i, Slot2(j, k, s), s, Square(s));
  }

  /** Distinct triplets land in distinct slots. */
  lemma Slot3Unique(i: nat, j: nat, k: nat, i2: nat, j2: nat, k2: nat, s: nat)
    requires i < s && j < s && i2 < s && j2 < s
    requires Slot3(i, j, k, s) == Slot3(i2, j2, k2, s)
    ensures i == i2 && j == j2 && k == k2
  {
    Slot2Unique(i, Slot2(j, k, s), i2, Slot2(j2, k2, s), s);
    Slot2Unique(j, k, j2, k2, s);
  }

  /** Every slot below `m*s` is the slot of the pair `(x % s, x / s)`, with `x / s < m`. */
  lemma Slot2Cover(x: nat, s: nat, m: nat)
    requires x < Times(m, s)
    ensures s > 0 && x / s < m && x == Slot2(x % s, x / s, s)
  {
    if s == 0 {
      TimesIsProduct(m, s);
      assert false;
    }
    var q, r := x / s, x % s;
    assert x == q * s + r;
    TimesIsProduct(q, s);
    if q >= m {
      TimesMono(m, q, s);
    }
  }

  /** Every slot below `s**3` is the slot of a triplet of indices below `s`. */
  lemma Slot3Cover(x: nat, s: nat)
    requires x < Cube(s)
    ensures s > 0 && x % s < s && (x / s) % s < s && x / s / s < s
    ensures x == Slot3(x % s, (x / s) % s, x / s / s, s)
  {
    Slot2Cover(x, s, Square(s));
    Slot2Cover(x / s, s, s);
  }

  /** The members of one group, each tagged with the group's id. */
  function Tag<T>(members: seq<T>, id: int): (r: seq<(T, int)>)
    ensures |r| == |members|
    ensures forall k :: 0 <= k < |r| ==> r[k] == (members[k], id)
  {
    seq(|members|, k requires 0 <= k < |members| => (members[k], id))
  }

  /** The members of all groups in the order `print_group` visits them, tagged with their group's id. */
  function Tagged<T>(groups: seq<seq<T>>): (r: seq<(T, int)>)
    ensures forall k :: 0 <= k < |r| ==> 0 <= r[k].1 < |groups|
  {
    if groups == [] then []
    else
      var init := Tagged(groups[..|groups| - 1]);
      var last := Tag(groups[|groups| - 1], |groups| - 1);
      assert forall k :: 0 <= k < |init + last| ==> (init + last)[k] == if k < |init| then init[k] else last[k - |init|];
      init + last
  }

  lemma TaggedStep<T>(groups: seq<seq<T>>, k: nat)
    requires k < |groups|
    ensures Tagged(groups[..k + 1]) == Tagged(groups[..k]) + Tag(groups[k], k)
  {
    assert groups[..k + 1][..k] == groups[..k];
  }

  /** A fresh mask: `np.ones(len) * value`. */
  function Filled(len: nat, value: int): (r: seq<int>)
    ensures |r| == len && forall k :: 0 <= k < len ==> r[k] == value
  {
    seq(len, _ => value)
  }

  // ---- the species mask ----

  /** `specie_mask[element_to_Z(e)] = idt` for each tagged element, in order. */
  function ApplySpecies(m: seq<int>, z: Value -> int, ws: seq<(Value, int)>): (r: seq<int>)
    requires forall v :: 0 <= z(v) < |m|
    ensures |r| == |m|
  {
    if ws == [] then m
    else
      var w := ws[|ws| - 1];
      ApplySpecies(m, z, ws[..|ws| - 1])[z(w.0) := w.1]
  }

  /** The id of the last tagged element whose slot is `slot`, or `d` if none is. */
  function LastAt(ws: seq<(Value, int)>, z: Value -> int, slot: int, d: int): int {
    if ws == [] then d
    else if z(ws[|ws| - 1].0) == slot then ws[|ws| - 1].1
    else LastAt(ws[..|ws| - 1], z, slot, d)
  }

  /** A slot of the species mask holds the group of the last element mapped to it. */
  lemma {:induction false} ApplySpeciesAt(m: seq<int>, z: Value -> int, ws: seq<(Value, int)>, slot: int)
    requires forall v :: 0 <= z(v) < |m|
    requires 0 <= slot < |m|
    ensures ApplySpecies(m, z, ws)[slot] == LastAt(ws, z, slot, m[slot])
    decreases |ws|
  {
    if ws != [] {
      ApplySpeciesAt(m, z, ws[..|ws| - 1], slot);
    }
  }

  lemma {:induction false} LastAtAppend(a: seq<(Value, int)>, b: seq<(Value, int)>, z: Value -> int, slot: int, d: int)
    ensures LastAt(a + b, z, slot, d) == LastAt(b, z, slot, LastAt(a, z, slot, d))
    decreases |b|
  {
    if b == [] {
      assert a + b == a;
    } else {
      assert (a + b)[..|a + b| - 1] == a + b[..|b| - 1];
      LastAtAppend(a, b[..|b| - 1], z, slot, d);
    }
  }

  /** Within one group, a slot written by none of its members keeps its value. */
  lemma {:induction false} LastAtMissing(members: seq<Value>, id: int, z: Value -> int, slot: int, d: int)
    requires forall k :: 0 <= k < |members| ==> z(members[k]) != slot
    ensures LastAt(Tag(members, id), z, slot, d) == d
    decreases |members|
  {
    if members != [] {
      assert Tag(members, id)[..|members| - 1] == Tag(members[..|members| - 1], id);
      LastAtMissing(members[..|members| - 1], id, z, slot, d);
    }
  }

  /** Within one group, a slot written by one of its members takes the group's id. */
  lemma {:induction false} LastAtHit(members: seq<Value>, id: int, z: Value -> int, slot: int, d: int, k: nat)
    requires k < |members| && z(members[k]) == slot
    ensures LastAt(Tag(members, id), z, slot, d) == id
    decreases |members|
  {
    if z(members[|members| - 1]) != slot {
      assert Tag(members, id)[..|members| - 1] == Tag(members[..|members| - 1], id);
      LastAtHit(members[..|members| - 1], id, z, slot, d, k);
    }
  }

  /**
   * When the slots of different groups' elements never collide, the slot of an
   * element of group `g` holds `g`, and a slot no element maps to holds `d`.
   */
  lemma {:induction false} SpeciesOwner(groups: seq<seq<Value>>, z: Value -> int, slot: int, d: int, g: int)
    requires forall a, b, x, y ::
               (0 <= a < |groups| && 0 <= b < |groups| && 0 <= x < |groups[a]| && 0 <= y < |groups[b]|
                && z(groups[a][x]) == z(groups[b][y])) ==> a == b
    requires 0 <= g < |groups| && exists x :: 0 <= x < |groups[g]| && z(groups[g][x]) == slot
    ensures LastAt(Tagged(groups), z, slot, d) == g
    decreases |groups|
  {
    var last := |groups| - 1;
    var init := groups[..last];
    LastAtAppend(Tagged(init), Tag(groups[last], last), z, slot, d);
    if g == last {
      var x :| 0 <= x < |groups[g]| && z(groups[g][x]) == slot;
      LastAtHit(groups[last], last, z, slot, LastAt(Tagged(init), z, slot, d), x);
    } else {
      forall y | 0 <= y < |groups[last]|
        ensures z(groups[last][y]) != slot
      {
        var x :| 0 <= x < |groups[g]| && z(groups[g][x]) == slot;
        assert z(groups[g][x]) == z(groups[last][y]) ==> g == last;
      }
      LastAtMissing(groups[last], last, z, slot, LastAt(Tagged(init), z, slot, d));
      assert groups[g] == init[g];
      SpeciesOwner(init, z, slot, d, g);
    }
  }

  lemma {:induction false} SpeciesUnowned(groups: seq<seq<Value>>, z: Value -> int, slot: int, d: int)
    requires forall a, x :: 0 <= a < |groups| && 0 <= x < |groups[a]| ==> z(groups[a][x]) != slot
    ensures LastAt(Tagged(groups), z, slot, d) == d
    decreases |groups|
  {
    if groups != [] {
      var last := |groups| - 1;
      var init := groups[..last];
      LastAtAppend(Tagged(init), Tag(groups[last], last), z, slot, d);
      LastAtMissing(groups[last], last, z, slot, LastAt(Tagged(init), z, slot, d));
      SpeciesUnowned(init, z, slot, d);
    }
  }

  /** `specie_mask`: 118 slots defaulting to `count - 1`, then each element's group id. */
  function SpecieMaskOf(groups: seq<seq<Value>>, z: Value -> int): seq<int>
    requires forall v :: 0 <= z(v) < 118
  {
    ApplySpecies(Filled(118, |groups| - 1), z, Tagged(groups))
  }

  // ---- pair masks ----

  /** Every tuple has at least `k` entries. */
  predicate Long(tuples: seq<seq<int>>, k: nat) {
    forall j :: 0 <= j < |tuples| ==> |tuples[j]| >= k
  }

  /** Every entry of every tuple is a species group id. */
  predicate Bounded(tuples: seq<seq<int>>, s: int) {
    forall j, x :: 0 <= j < |tuples| && 0 <= x < |tuples[j]| ==> 0 <= tuples[j][x] < s
  }

  /** A tagged tuple can be written into a mask over `s` species with `arity` entries used. */
  predicate ReadyOne(w: (seq<int>, int), s: int, arity: nat) {
    |w.0| >= arity && forall x :: 0 <= x < arity ==> 0 <= w.0[x] < s
  }

  predicate Ready(ws: seq<(seq<int>, int)>, s: int, arity: nat) {
    forall k :: 0 <= k < |ws| ==> ReadyOne(ws[k], s, arity)
  }

  lemma ReadyTag(tuples: seq<seq<int>>, id: int, s: int, arity: nat)
    requires Long(tuples, arity) && Bounded(tuples, s)
    ensures Ready(Tag(tuples, id), s, arity)
  {
  }

  lemma {:induction false} ReadyTagged(groups: seq<seq<seq<int>>>, s: int, arity: nat)
    requires forall g :: 0 <= g < |groups| ==> Long(groups[g], arity) && Bounded(groups[g], s)
    ensures Ready(Tagged(groups), s, arity)
    decreases |groups|
  {
    if groups != [] {
      ReadyTagged(groups[..|groups| - 1], s, arity);
      ReadyTag(groups[|groups| - 1], |groups| - 1, s, arity);
    }
  }

  /** `mask[g1 + g2*s] = id; mask[g2 + g1*s] = id` */
  function PairWrite(m: seq<int>, s: nat, w: (seq<int>, int)): (r: seq<int>)
    requires |m| == Square(s) && ReadyOne(w, s, 2)
    ensures |r| == |m|
  {
    var g1, g2 := w.0[0], w.0[1];
    Slot2Bounds(g1, g2, s, s);
    Slot2Bounds(g2, g1, s, s);
    m[Slot2(g1, g2, s) := w.1][Slot2(g2, g1, s) := w.1]
  }

  function ApplyPairs(m: seq<int>, s: nat, ws: seq<(seq<int>, int)>): (r: seq<int>)
    requires |m| == Square(s) && Ready(ws, s, 2)
    ensures |r| == |m|
  {
    if ws == [] then m
    else PairWrite(ApplyPairs(m, s, ws[..|ws| - 1]), s, ws[|ws| - 1])
  }

  lemma ApplyPairsStep(m: seq<int>, s: nat, ws: seq<(seq<int>, int)>, w: (seq<int>, int))
    requires |m| == Square(s) && Ready(ws + [w], s, 2)
    ensures Ready(ws, s, 2) && ReadyOne(w, s, 2)
    ensures ApplyPairs(m, s, ws + [w]) == PairWrite(ApplyPairs(m, s, ws), s, w)
  {
    assert (ws + [w])[..|ws|] == ws;
    assert (ws + [w])[|ws|] == w;
  }

  lemma {:induction false} ApplyPairsAppend(m: seq<int>, s: nat, a: seq<(seq<int>, int)>, b: seq<(seq<int>, int)>)
    requires |m| == Square(s) && Ready(a, s, 2) && Ready(b, s, 2)
    ensures Ready(a + b, s, 2)
    ensures ApplyPairs(m, s, a + b) == ApplyPairs(ApplyPairs(m, s, a), s, b)
    decreases |b|
  {
    assert forall k :: 0 <= k < |a + b| ==> (a + b)[k] == if k < |a| then a[k] else b[k - |a|];
    if b == [] {
      assert a + b == a;
    } else {
      var b' := b[..|b| - 1];
      assert a + b == (a + b') + [b[|b| - 1]];
      ApplyPairsAppend(m, s, a, b');
      ApplyPairsStep(m, s, a + b', b[|b| - 1]);
      ApplyPairsStep(ApplyPairs(m, s, a), s, b', b[|b| - 1]);
    }
  }

  /** The write `w` touches the unordered pair `{i, j}`. */
  predicate TouchesPair(w: (seq<int>, int), i: int, j: int)
    requires |w.0| >= 2
  {
    (w.0[0] == i && w.0[1] == j) || (w.0[0] == j && w.0[1] == i)
  }

  /** The id of the last write touching `{i, j}`, or `d` if none does. */
  function LastPair(ws: seq<(seq<int>, int)>, i: int, j: int, d: int): int
    requires forall k :: 0 <= k < |ws| ==> |ws[k].0| >= 2
  {
    if ws == [] then d
    else if TouchesPair(ws[|ws| - 1], i, j) then ws[|ws| - 1].1
    else LastPair(ws[..|ws| - 1], i, j, d)
  }

  /** The two writes of one pair reach exactly the slots of its two orderings. */
  lemma PairWriteAt(m: seq<int>, s: nat, w: (seq<int>, int), i: int, j: int)
    requires |m| == Square(s) && ReadyOne(w, s, 2)
    requires 0 <= i < s && 0 <= j < s
    ensures Slot2(i, j, s) < |m|
    ensures PairWrite(m, s, w)[Slot2(i, j, s)] == if TouchesPair(w, i, j) then w.1 else m[Slot2(i, j, s)]
  {
    Slot2Bounds(i, j, s, s);
    var g1, g2 := w.0[0], w.0[1];
    Slot2Bounds(g1, g2, s, s);
    Slot2Bounds(g2, g1, s, s);
    var x := Slot2(i, j, s);
    var r := m[Slot2(g1, g2, s) := w.1][Slot2(g2, g1, s) := w.1];
    assert PairWrite(m, s, w) == r;
    if x == Slot2(g1, g2, s) {
      Slot2Unique(i, j, g1, g2, s);
    } else if x == Slot2(g2, g1, s) {
      Slot2Unique(i, j, g2, g1, s);
    } else {
      assert r[x] == m[x];
    }
  }

  /** A pair slot holds the id of the last tuple naming that pair, in either order. */
  lemma {:induction false} ApplyPairsAt(m: seq<int>, s: nat, ws: seq<(seq<int>, int)>, i: int, j: int)
    requires |m| == Square(s) && Ready(ws, s, 2)
    requires 0 <= i < s && 0 <= j < s
    ensures Slot2(i, j, s) < |m|
    ensures ApplyPairs(m, s, ws)[Slot2(i, j, s)] == LastPair(ws, i, j, m[Slot2(i, j, s)])
    decreases |ws|
  {
    Slot2Bounds(i, j, s, s);
    if ws != [] {
      ApplyPairsAt(m, s, ws[..|ws| - 1], i, j);
      PairWriteAt(ApplyPairs(m, s, ws[..|ws| - 1]), s, ws[|ws| - 1], i, j);
    }
  }

  lemma {:induction false} LastPairSymmetric(ws: seq<(seq<int>, int)>, i: int, j: int, d: int)
    requires forall k :: 0 <= k < |ws| ==> |ws[k].0| >= 2
    ensures LastPair(ws, i, j, d) == LastPair(ws, j, i, d)
    decreases |ws|
  {
    if ws != [] {
      LastPairSymmetric(ws[..|ws| - 1], i, j, d);
    }
  }

  lemma {:induction false} LastPairBounds(ws: seq<(seq<int>, int)>, i: int, j: int, d: int, count: int)
    requires forall k :: 0 <= k < |ws| ==> |ws[k].0| >= 2 && 0 <= ws[k].1 < count
    requires 0 <= d < count
    ensures 0 <= LastPair(ws, i, j, d) < count
    decreases |ws|
  {
    if ws != [] {
      LastPairBounds(ws[..|ws| - 1], i, j, d, count);
    }
  }

  /** `mask[group_type]` for a pair type: `count - 1` everywhere, then the tuples' ids. */
  function PairMaskOf(s: nat, count: int, groups: seq<seq<seq<int>>>): seq<int>
    requires Ready(Tagged(groups), s, 2)
  {
    ApplyPairs(Filled(Square(s), count - 1), s, Tagged(groups))
  }

  /**
   * The pair mask has `s*s` slots; the slot of `(i, j)` holds the id of the last
   * group naming `{i, j}`, or `count - 1`; it is symmetric; and with `count` groups
   * every slot holds a valid group id.
   */
  lemma PairMaskShape(s: nat, groups: seq<seq<seq<int>>>)
    requires Ready(Tagged(groups), s, 2) && |groups| >= 1
    ensures |PairMaskOf(s, |groups|, groups)| == Square(s)
    ensures forall i, j :: 0 <= i < s && 0 <= j < s ==>
              Slot2(i, j, s) < Square(s) && Slot2(j, i, s) < Square(s)
              && PairMaskOf(s, |groups|, groups)[Slot2(i, j, s)] == LastPair(Tagged(groups), i, j, |groups| - 1)
              && PairMaskOf(s, |groups|, groups)[Slot2(i, j, s)] == PairMaskOf(s, |groups|, groups)[Slot2(j, i, s)]
    ensures forall k :: 0 <= k < Square(s) ==> 0 <= PairMaskOf(s, |groups|, groups)[k] < |groups|
  {
    var ws := Tagged(groups);
    var d := |groups| - 1;
    var m := PairMaskOf(s, |groups|, groups);
    forall i, j | 0 <= i < s && 0 <= j < s
      ensures Slot2(i, j, s) < Square(s) && Slot2(j, i, s) < Square(s)
      ensures m[Slot2(i, j, s)] == LastPair(ws, i, j, d)
      ensures m[Slot2(i, j, s)] == m[Slot2(j, i, s)]
    {
      ApplyPairsAt(Filled(Square(s), d), s, ws, i, j);
      ApplyPairsAt(Filled(Square(s), d), s, ws, j, i);
      LastPairSymmetric(ws, i, j, d);
    }
    forall k | 0 <= k < Square(s)
      ensures 0 <= m[k] < |groups|
    {
      Slot2Cover(k, s, s);
      var i, j := k % s, k / s;
      ApplyPairsAt(Filled(Square(s), d), s, ws, i, j);
      LastPairBounds(ws, i, j, d, |groups|);
    }
  }

  /** One group's tuples written into a pair mask, as `print_group`'s inner loop does. */
  method WritePairs(a: array<int>, s: nat, tuples: seq<seq<int>>, id: int) returns (ok: bool)
    requires a.Length == Square(s) && Bounded(tuples, s)
    modifies a
    ensures ok <==> Long(tuples, 2)
    ensures ok ==> Ready(Tag(tuples, id), s, 2) && a[..] == ApplyPairs(old(a[..]), s, Tag(tuples, id))
  {
    var j := 0;
    while j < |tuples|
      invariant 0 <= j <= |tuples|
      invariant Long(tuples[..j], 2) && Ready(Tag(tuples[..j], id), s, 2)
      invariant a[..] == ApplyPairs(old(a[..]), s, Tag(tuples[..j], id))
    {
      var t := tuples[j];
      if |t| < 2 {
        return false;
      }
      Slot2Bounds(t[0], t[1], s, s);
      Slot2Bounds(t[1], t[0], s, s);
      ghost var before := a[..];
      a[Slot2(t[0], t[1], s)] := id;
      a[Slot2(t[1], t[0], s)] := id;
      assert a[..] == PairWrite(before, s, (t, id));
      assert Tag(tuples[..j + 1], id) == Tag(tuples[..j], id) + [(t, id)];
      ApplyPairsStep(old(a[..]), s, Tag(tuples[..j], id), (t, id));
      j := j + 1;
    }
    assert tuples[..j] == tuples;
    return true;
  }

  // ---- the triplet mask ----

  /** `(i, j, k)` is one of the six orderings of `(a, b, c)`. */
  predicate Ordering(a: int, b: int, c: int, i: int, j: int, k: int) {
    (i == a && j == b && k == c) || (i == a && j == c && k == b) || (i == b && j == a && k == c)
    || (i == b && j == c && k == a) || (i == c && j == a && k == b) || (i == c && j == b && k == a)
  }

  /** The six writes of one triplet, in the order `print_group` makes them. */
  function TripletWrite(m: seq<int>, s: nat, w: (seq<int>, int)): (r: seq<int>)
    requires |m| == Cube(s) && ReadyOne(w, s, 3)
    ensures |r| == |m|
  {
    var g1, g2, g3, id := w.0[0], w.0[1], w.0[2], w.1;
    Slot3Bounds(g1, g2, g3, s);
    Slot3Bounds(g1, g3, g2, s);
    Slot3Bounds(g2, g1, g3, s);
    Slot3Bounds(g2, g3, g1, s);
    Slot3Bounds(g3, g1, g2, s);
    Slot3Bounds(g3, g2, g1, s);
    m[Slot3(g1, g2, g3, s) := id][Slot3(g1, g3, g2, s) := id][Slot3(g2, g1, g3, s) := id]
     [Slot3(g2, g3, g1, s) := id][Slot3(g3, g1, g2, s) := id][Slot3(g3, g2, g1, s) := id]
  }

  function ApplyTriplets(m: seq<int>, s: nat, ws: seq<(seq<int>, int)>): (r: seq<int>)
    requires |m| == Cube(s) && Ready(ws, s, 3)
    ensures |r| == |m|
  {
    if ws == [] then m
    else TripletWrite(ApplyTriplets(m, s, ws[..|ws| - 1]), s, ws[|ws| - 1])
  }

  lemma ApplyTripletsStep(m: seq<int>, s: nat, ws: seq<(seq<int>, int)>, w: (seq<int>, int))
    requires |m| == Cube(s) && Ready(ws + [w], s, 3)
    ensures Ready(ws, s, 3) && ReadyOne(w, s, 3)
    ensures ApplyTriplets(m, s, ws + [w]) == TripletWrite(ApplyTriplets(m, s, ws), s, w)
  {
    assert (ws + [w])[..|ws|] == ws;
    assert (ws + [w])[|ws|] == w;
  }

  lemma {:induction false} ApplyTripletsAppend(m: seq<int>, s: nat, a: seq<(seq<int>, int)>, b: seq<(seq<int>, int)>)
    requires |m| == Cube(s) && Ready(a, s, 3) && Ready(b, s, 3)
    ensures Ready(a + b, s, 3)
    ensures ApplyTriplets(m, s, a + b) == ApplyTriplets(ApplyTriplets(m, s, a), s, b)
    decreases |b|
  {
    assert forall k :: 0 <= k < |a + b| ==> (a + b)[k] == if k < |a| then a[k] else b[k - |a|];
    if b == [] {
      assert a + b == a;
    } else {
      var b' := b[..|b| - 1];
      assert a + b == (a + b') + [b[|b| - 1]];
      ApplyTripletsAppend(m, s, a, b');
      ApplyTripletsStep(m, s, a + b', b[|b| - 1]);
      ApplyTripletsStep(ApplyTriplets(m, s, a), s, b', b[|b| - 1]);
    }
  }

  /** The id of the last write naming some ordering of `(i, j, k)`, or `d` if none does. */
  function LastTriplet(ws: seq<(seq<int>, int)>, i: int, j: int, k: int, d: int): int
    requires forall x :: 0 <= x < |ws| ==> |ws[x].0| >= 3
  {
    if ws == [] then d
    else
      var w := ws[|ws| - 1];
      if Ordering(w.0[0], w.0[1], w.0[2], i, j, k) then w.1
      else LastTriplet(ws[..|ws| - 1], i, j, k, d)
  }

  /** Six writes of one value: a slot takes the value exactly when it is one of the six. */
  lemma Update6(m: seq<int>, a1: int, a2: int, a3: int, a4: int, a5: int, a6: int, v: int, x: int)
    requires 0 <= a1 < |m| && 0 <= a2 < |m| && 0 <= a3 < |m| && 0 <= a4 < |m| && 0 <= a5 < |m| && 0 <= a6 < |m|
    requires 0 <= x < |m|
    ensures m[a1 := v][a2 := v][a3 := v][a4 := v][a5 := v][a6 := v][x]
         == if x == a1 || x == a2 || x == a3 || x == a4 || x == a5 || x == a6 then v else m[x]
  {
  }

  /** The slot of `(i, j, k)` is one of the six slots of a triplet exactly when it orders the triplet. */
  lemma OrderingSlots(g1: nat, g2: nat, g3: nat, i: nat, j: nat, k: nat, s: nat)
    requires g1 < s && g2 < s && g3 < s && i < s && j < s && k < s
    ensures Ordering(g1, g2, g3, i, j, k) <==>
      var x := Slot3(i, j, k, s);
      x == Slot3(g1, g2, g3, s) || x == Slot3(g1, g3, g2, s) || x == Slot3(g2, g1, g3, s)
      || x == Slot3(g2, g3, g1, s) || x == Slot3(g3, g1, g2, s) || x == Slot3(g3, g2, g1, s)
  {
    var x := Slot3(i, j, k, s);
    if x == Slot3(g1, g2, g3, s) { Slot3Unique(i, j, k, g1, g2, g3, s); }
    if x == Slot3(g1, g3, g2, s) { Slot3Unique(i, j, k, g1, g3, g2, s); }
    if x == Slot3(g2, g1, g3, s) { Slot3Unique(i, j, k, g2, g1, g3, s); }
    if x == Slot3(g2, g3, g1, s) { Slot3Unique(i, j, k, g2, g3, g1, s); }
    if x == Slot3(g3, g1, g2, s) { Slot3Unique(i, j, k, g3, g1, g2, s); }
    if x == Slot3(g3, g2, g1, s) { Slot3Unique(i, j, k, g3, g2, g1, s); }
  }

  /** The six writes of one triplet reach exactly the slots of its orderings. */
  lemma TripletWriteAt(m: seq<int>, s: nat, w: (seq<int>, int), i: int, j: int, k: int)
    requires |m| == Cube(s) && ReadyOne(w, s, 3)
    requires 0 <= i < s && 0 <= j < s && 0 <= k < s
    ensures Slot3(i, j, k, s) < |m|
    ensures TripletWrite(m, s, w)[Slot3(i, j, k, s)]
         == if Ordering(w.0[0], w.0[1], w.0[2], i, j, k) then w.1 else m[Slot3(i, j, k, s)]
  {
    Slot3Bounds(i, j, k, s);
    var g1, g2, g3 := w.0[0], w.0[1], w.0[2];
    Slot3Bounds(g1, g2, g3, s);
    Slot3Bounds(g1, g3, g2, s);
    Slot3Bounds(g2, g1, g3, s);
    Slot3Bounds(g2, g3, g1, s);
    Slot3Bounds(g3, g1, g2, s);
    Slot3Bounds(g3, g2, g1, s);
    Update6(m, Slot3(g1, g2, g3, s), Slot3(g1, g3, g2, s), Slot3(g2, g1, g3, s),
            Slot3(g2, g3, g1, s), Slot3(g3, g1, g2, s), Slot3(g3, g2, g1, s), w.1, Slot3(i, j, k, s));
    OrderingSlots(g1, g2, g3, i, j, k, s);
  }

  /** A triplet slot holds the id of the last tuple naming any ordering of it. */
  lemma {:induction false} ApplyTripletsAt(m: seq<int>, s: nat, ws: seq<(seq<int>, int)>, i: int, j: int, k: int)
    requires |m| == Cube(s) && Ready(ws, s, 3)
    requires 0 <= i < s && 0 <= j < s && 0 <= k < s
    ensures Slot3(i, j, k, s) < |m|
    ensures ApplyTriplets(m, s, ws)[Slot3(i, j, k, s)] == LastTriplet(ws, i, j, k, m[Slot3(i, j, k, s)])
    decreases |ws|
  {
    Slot3Bounds(i, j, k, s);
    if ws != [] {
      ApplyTripletsAt(m, s, ws[..|ws| - 1], i, j, k);
      TripletWriteAt(ApplyTriplets(m, s, ws[..|ws| - 1]), s, ws[|ws| - 1], i, j, k);
    }
  }

  /** Swapping the first two or the last two indices changes no answer. */
  lemma {:induction false} LastTripletSymmetric(ws: seq<(seq<int>, int)>, i: int, j: int, k: int, d: int)
    requires forall x :: 0 <= x < |ws| ==> |ws[x].0| >= 3
    ensures LastTriplet(ws, i, j, k, d) == LastTriplet(ws, j, i, k, d)
    ensures LastTriplet(ws, i, j, k, d) == LastTriplet(ws, i, k, j, d)
    decreases |ws|
  {
    if ws != [] {
      LastTripletSymmetric(ws[..|ws| - 1], i, j, k, d);
    }
  }

  lemma {:induction false} LastTripletBounds(ws: seq<(seq<int>, int)>, i: int, j: int, k: int, d: int, count: int)
    requires forall x :: 0 <= x < |ws| ==> |ws[x].0| >= 3 && 0 <= ws[x].1 < count
    requires 0 <= d < count
    ensures 0 <= LastTriplet(ws, i, j, k, d) < count
    decreases |ws|
  {
    if ws != [] {
      LastTripletBounds(ws[..|ws| - 1], i, j, k, d, count);
    }
  }

  /** `mask['triplet']`: `count - 1` everywhere, then the six slots of every tuple. */
  function TripletMaskOf(s: nat, count: int, groups: seq<seq<seq<int>>>): seq<int>
    requires Ready(Tagged(groups), s, 3)
  {
    ApplyTriplets(Filled(Cube(s), count - 1), s, Tagged(groups))
  }

  /**
   * The triplet mask has `s*s*s` slots, and the slot of `(i, j, k)` holds the id of
   * the last group naming one of its orderings, or `count - 1`.
   */
  lemma TripletMaskAt(s: nat, groups: seq<seq<seq<int>>>)
    requires Ready(Tagged(groups), s, 3)
    ensures |TripletMaskOf(s, |groups|, groups)| == Cube(s)
    ensures forall i, j, k :: 0 <= i < s && 0 <= j < s && 0 <= k < s ==>
              Slot3(i, j, k, s) < Cube(s)
              && TripletMaskOf(s, |groups|, groups)[Slot3(i, j, k, s)] == LastTriplet(Tagged(groups), i, j, k, |groups| - 1)
  {
    forall i, j, k | 0 <= i < s && 0 <= j < s && 0 <= k < s
      ensures Slot3(i, j, k, s) < Cube(s)
      ensures TripletMaskOf(s, |groups|, groups)[Slot3(i, j, k, s)] == LastTriplet(Tagged(groups), i, j, k, |groups| - 1)
    {
      ApplyTripletsAt(Filled(Cube(s), |groups| - 1), s, Tagged(groups), i, j, k);
    }
  }

  /** The six orderings of a triplet share one slot value. */
  lemma TripletMaskSymmetric(s: nat, groups: seq<seq<seq<int>>>)
    requires Ready(Tagged(groups), s, 3)
    ensures forall i, j, k :: 0 <= i < s && 0 <= j < s && 0 <= k < s ==>
              Slot3(i, j, k, s) < Cube(s) && Slot3(j, i, k, s) < Cube(s) && Slot3(i, k, j, s) < Cube(s)
              && TripletMaskOf(s, |groups|, groups)[Slot3(i, j, k, s)] == TripletMaskOf(s, |groups|, groups)[Slot3(j, i, k, s)]
              && TripletMaskOf(s, |groups|, groups)[Slot3(i, j, k, s)] == TripletMaskOf(s, |groups|, groups)[Slot3(i, k, j, s)]
  {
    TripletMaskAt(s, groups);
    forall i, j, k | 0 <= i < s && 0 <= j < s && 0 <= k < s
      ensures Slot3(i, j, k, s) < Cube(s) && Slot3(j, i, k, s) < Cube(s) && Slot3(i, k, j, s) < Cube(s)
      ensures TripletMaskOf(s, |groups|, groups)[Slot3(i, j, k, s)] == TripletMaskOf(s, |groups|, groups)[Slot3(j, i, k, s)]
      ensures TripletMaskOf(s, |groups|, groups)[Slot3(i, j, k, s)] == TripletMaskOf(s, |groups|, groups)[Slot3(i, k, j, s)]
    {
      LastTripletSymmetric(Tagged(groups), i, j, k, |groups| - 1);
    }
  }

  /** With `count` groups, every slot of the triplet mask holds a valid group id. */
  lemma TripletMaskBounds(s: nat, groups: seq<seq<seq<int>>>)
    requires Ready(Tagged(groups), s, 3) && |groups| >= 1
    ensures |TripletMaskOf(s, |groups|, groups)| == Cube(s)
    ensures forall x :: 0 <= x < Cube(s) ==> 0 <= TripletMaskOf(s, |groups|, groups)[x] < |groups|
  {
    forall x | 0 <= x < Cube(s)
      ensures 0 <= TripletMaskOf(s, |groups|, groups)[x] < |groups|
    {
      TripletSlotBounds(s, groups, x);
    }
  }

  lemma TripletSlotBounds(s: nat, groups: seq<seq<seq<int>>>, x: nat)
    requires Ready(Tagged(groups), s, 3) && |groups| >= 1 && x < Cube(s)
    ensures |TripletMaskOf(s, |groups|, groups)| == Cube(s)
    ensures 0 <= TripletMaskOf(s, |groups|, groups)[x] < |groups|
  {
    Slot3Cover(x, s);
    var i, j, k := x % s, (x / s) % s, x / s / s;
    ApplyTripletsAt(Filled(Cube(s), |groups| - 1), s, Tagged(groups), i, j, k);
    LastTripletBounds(Tagged(groups), i, j, k, |groups| - 1, |groups|);
  }

  /** One group's tuples written into the triplet mask, as `print_group`'s inner loop does. */
  method WriteTriplets(a: array<int>, s: nat, tuples: seq<seq<int>>, id: int) returns (ok: bool)
    requires a.Length == Cube(s) && Bounded(tuples, s)
    modifies a
    ensures ok <==> Long(tuples, 3)
    ensures ok ==> Ready(Tag(tuples, id), s, 3) && a[..] == ApplyTriplets(old(a[..]), s, Tag(tuples, id))
  {
    var j := 0;
    while j < |tuples|
      invariant 0 <= j <= |tuples|
      invariant Long(tuples[..j], 3) && Ready(Tag(tuples[..j], id), s, 3)
      invariant a[..] == ApplyTriplets(old(a[..]), s, Tag(tuples[..j], id))
    {
      var t := tuples[j];
      if |t| < 3 {
        return false;
      }
      var g1, g2, g3 := t[0], t[1], t[2];
      Slot3Bounds(g1, g2, g3, s);
      Slot3Bounds(g1, g3, g2, s);
      Slot3Bounds(g2, g1, g3, s);
      Slot3Bounds(g2, g3, g1, s);
      Slot3Bounds(g3, g1, g2, s);
      Slot3Bounds(g3, g2, g1, s);
      ghost var before := a[..];
      Write6(a, Slot3(g1, g2, g3, s), Slot3(g1, g3, g2, s), Slot3(g2, g1, g3, s),
             Slot3(g2, g3, g1, s), Slot3(g3, g1, g2, s), Slot3(g3, g2, g1, s), id);
      assert a[..] == TripletWrite(before, s, (t, id));
      assert Tag(tuples[..j + 1], id) == Tag(tuples[..j], id) + [(t, id)];
      ApplyTripletsStep(old(a[..]), s, Tag(tuples[..j], id), (t, id));
      j := j + 1;
    }
    assert tuples[..j] == tuples;
    return true;
  }

  /** The six writes `print_group` makes for one triplet, one slot each. */
  method Write6(a: array<int>, a1: nat, a2: nat, a3: nat, a4: nat, a5: nat, a6: nat, v: int)
    requires a1 < a.Length && a2 < a.Length && a3 < a.Length && a4 < a.Length && a5 < a.Length && a6 < a.Length
    modifies a
    ensures a[..] == old(a[..])[a1 := v][a2 := v][a3 := v][a4 := v][a5 := v][a6 := v]
  {
    a[a1] := v;
    a[a2] := v;
    a[a3] := v;
    a[a4] := v;
    a[a5] := v;
    a[a6] := v;
  }

  /** The species mask filled element by element, as `print_group('specie')` does. */
  method WriteSpecies(a: array<int>, z: Value -> int, members: seq<Value>, id: int)
    requires a.Length == 118 && forall v :: 0 <= z(v) < 118
    modifies a
    ensures a[..] == ApplySpecies(old(a[..]), z, Tag(members, id))
  {
    var j := 0;
    while j < |members|
      invariant 0 <= j <= |members|
      invariant a[..] == ApplySpecies(old(a[..]), z, Tag(members[..j], id))
    {
      a[z(members[j])] := id;
      assert Tag(members[..j + 1], id)[..j] == Tag(members[..j], id);
      j := j + 1;
    }
    assert members[..j] == members;
  }

  lemma {:induction false} ApplySpeciesAppend(m: seq<int>, z: Value -> int, a: seq<(Value, int)>, b: seq<(Value, int)>)
    requires forall v :: 0 <= z(v) < |m|
    ensures ApplySpecies(m, z, a + b) == ApplySpecies(ApplySpecies(m, z, a), z, b)
    decreases |b|
  {
    if b == [] {
      assert a + b == a;
    } else {
      var b' := b[..|b| - 1];
      assert (a + b)[..|a + b| - 1] == a + b';
      ApplySpeciesAppend(m, z, a, b');
    }
  }
}
