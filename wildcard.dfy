/**
 * How `define_group` turns an element list into member tuples of species-group ids:
 * every `*` is expanded, one at a time, over the species group names, and each
 * resulting list of names is resolved to ids.
 */
module Wildcard {
  import opened Wrappers
  import opened MaskTypes

  /** The number of `*` entries in a list. */
  function StarCount(es: seq<Value>): nat {
    if es == [] then 0 else StarCount(es[..|es| - 1]) + (if es[|es| - 1] == Star then 1 else 0)
  }

  lemma {:induction false} StarCountAppend(a: seq<Value>, b: seq<Value>)
    ensures StarCount(a + b) == StarCount(a) + StarCount(b)
    decreases |b|
  {
    if b == [] {
      assert a + b == a;
    } else {
      assert (a + b)[..|a + b| - 1] == a + b[..|b| - 1];
      StarCountAppend(a, b[..|b| - 1]);
    }
  }

  lemma {:induction false} StarCountZero(es: seq<Value>)
    ensures StarCount(es) == 0 <==> Star !in es
    decreases |es|
  {
    if es != [] {
      StarCountZero(es[..|es| - 1]);
      assert es == es[..|es| - 1] + [es[|es| - 1]];
    }
  }

  /** Python's `xs.index(x)`: the first position of `x`. */
  function FirstIndex<T(==)>(xs: seq<T>, x: T): (r: nat)
    requires x in xs
    ensures r < |xs| && xs[r] == x && x !in xs[..r]
  {
    if xs[0] == x then 0
    else
      var r := 1 + FirstIndex(xs[1..], x);
      assert xs[..r] == [xs[0]] + xs[1..][..r - 1];
      r
  }

  /** `one_star_less`: the list with its first `*` popped. */
  function WithoutFirstStar(es: seq<Value>): (r: seq<Value>)
    requires Star in es
    ensures StarCount(r) + 1 == StarCount(es)
  {
    var i := FirstIndex(es, Star);
    assert es == es[..i] + [Star] + es[i + 1..];
    StarCountAppend(es[..i] + [Star], es[i + 1..]);
    StarCountAppend(es[..i], [Star]);
    StarCountAppend(es[..i], es[i + 1..]);
    assert StarCount([Star]) == 1 by {
      assert [Star][..0] == [];
    }
    es[..i] + es[i + 1..]
  }

  /**
   * The element lists `define_group` ends up defining: the list itself if it holds no
   * `*`; otherwise, for each species group name `sub` in order, the expansion of the
   * list with its first `*` popped and `sub` appended.
   */
  function Expand(es: seq<Value>, subs: seq<Value>): seq<seq<Value>>
    requires Star !in subs
    decreases StarCount(es), 1, 0
  {
    if Star !in es then [es]
    else ExpandEach(WithoutFirstStar(es), subs, subs)
  }

  /** The expansions of `rest + [sub]` for the first `|done|` names `sub`, concatenated. */
  function ExpandEach(rest: seq<Value>, done: seq<Value>, subs: seq<Value>): seq<seq<Value>>
    requires Star !in subs && Star !in done
    decreases StarCount(rest) + 1, 0, |done|
  {
    if done == [] then []
    else
      var sub := done[|done| - 1];
      StarCountAppend(rest, [sub]);
      assert StarCount([sub]) == 0 by {
        assert [sub][..0] == [];
      }
      ExpandEach(rest, done[..|done| - 1], subs) + Expand(rest + [sub], subs)
  }

  /** One more species group name done adds that name's expansion at the end. */
  lemma ExpandEachStep(rest: seq<Value>, subs: seq<Value>, i: nat)
    requires Star !in subs && i < |subs|
    ensures Star !in subs[..i] && Star !in subs[..i + 1]
    ensures ExpandEach(rest, subs[..i + 1], subs) == ExpandEach(rest, subs[..i], subs) + Expand(rest + [subs[i]], subs)
  {
    assert subs[..i + 1][..i] == subs[..i];
  }

  lemma ExpandEachLast(rest: seq<Value>, done: seq<Value>, subs: seq<Value>)
    requires Star !in subs && Star !in done && done != []
    ensures Star !in done[..|done| - 1]
    ensures ExpandEach(rest, done, subs) == ExpandEach(rest, done[..|done| - 1], subs) + Expand(rest + [done[|done| - 1]], subs)
  {
  }

  function Pow(b: nat, e: nat): nat {
    if e == 0 then 1 else b * Pow(b, e - 1)
  }

  /** A pattern with `k` stars over `s` species group names defines `s^k` tuples. */
  lemma {:induction false} ExpandCount(es: seq<Value>, subs: seq<Value>)
    requires Star !in subs
    ensures |Expand(es, subs)| == Pow(|subs|, StarCount(es))
    decreases StarCount(es), 1, 0
  {
    if Star !in es {
      StarCountZero(es);
    } else {
      ExpandEachCount(WithoutFirstStar(es), subs, subs);
    }
  }

  lemma {:induction false} ExpandEachCount(rest: seq<Value>, done: seq<Value>, subs: seq<Value>)
    requires Star !in subs && Star !in done
    ensures |ExpandEach(rest, done, subs)| == |done| * Pow(|subs|, StarCount(rest))
    decreases StarCount(rest) + 1, 0, |done|
  {
    if done != [] {
      var sub := done[|done| - 1];
      StarCountAppend(rest, [sub]);
      assert StarCount([sub]) == 0 by {
        assert [sub][..0] == [];
      }
      ExpandEachCount(rest, done[..|done| - 1], subs);
      ExpandCount(rest + [sub], subs);
      MulStep(|done|, Pow(|subs|, StarCount(rest)));
    }
  }

  lemma MulStep(n: nat, p: nat)
    requires n > 0
    ensures n * p == (n - 1) * p + p
  {
  }

  /** The entries of `es` that are not `*`, in order. */
  function NonStars(es: seq<Value>): (r: seq<Value>)
    ensures Star !in r
  {
    if es == [] then []
    else NonStars(es[..|es| - 1]) + (if es[|es| - 1] == Star then [] else [es[|es| - 1]])
  }

  lemma {:induction false} NonStarsAppend(a: seq<Value>, b: seq<Value>)
    ensures NonStars(a + b) == NonStars(a) + NonStars(b)
    decreases |b|
  {
    if b == [] {
      assert a + b == a;
    } else {
      assert (a + b)[..|a + b| - 1] == a + b[..|b| - 1];
      NonStarsAppend(a, b[..|b| - 1]);
    }
  }

  lemma {:induction false} NonStarsOfStarFree(es: seq<Value>)
    requires Star !in es
    ensures NonStars(es) == es
    decreases |es|
  {
    if es != [] {
      NonStarsOfStarFree(es[..|es| - 1]);
      assert es == es[..|es| - 1] + [es[|es| - 1]];
    }
  }

  lemma NonStarsWithoutFirstStar(es: seq<Value>)
    requires Star in es
    ensures NonStars(WithoutFirstStar(es)) == NonStars(es)
  {
    var i := FirstIndex(es, Star);
    var a, b := es[..i], es[i + 1..];
    assert es == (a + [Star]) + b;
    assert WithoutFirstStar(es) == a + b;
    assert NonStars([Star]) == [] by {
      assert [Star][..0] == [];
    }
    NonStarsAppend(a + [Star], b);
    NonStarsAppend(a, [Star]);
    NonStarsAppend(a, b);
    calc {
      NonStars(es);
      NonStars(a + [Star]) + NonStars(b);
      (NonStars(a) + []) + NonStars(b);
      { assert NonStars(a) + [] == NonStars(a); }
      NonStars(a + b);
    }
  }

  /** The list is `fixed` followed by `stars` species group names. */
  predicate LeafAfter(leaf: seq<Value>, fixed: seq<Value>, stars: nat, subs: seq<Value>) {
    |leaf| == |fixed| + stars && leaf[..|fixed|] == fixed
    && forall k :: |fixed| <= k < |leaf| ==> leaf[k] in subs
  }

  /**
   * Every defined list is the pattern's non-`*` entries in order followed by one
   * species group name per `*`.
   */
  predicate LeafOf(leaf: seq<Value>, es: seq<Value>, subs: seq<Value>) {
    LeafAfter(leaf, NonStars(es), StarCount(es), subs)
  }

  lemma {:induction false} ExpandLeaves(es: seq<Value>, subs: seq<Value>)
    requires Star !in subs
    ensures forall leaf :: leaf in Expand(es, subs) ==> LeafOf(leaf, es, subs)
    decreases StarCount(es), 1, 0
  {
    if Star !in es {
      StarCountZero(es);
      NonStarsOfStarFree(es);
      assert es[..|es|] == es;
    } else {
      ExpandEachLeaves(WithoutFirstStar(es), subs, subs);
      NonStarsWithoutFirstStar(es);
    }
  }

  lemma {:induction false} ExpandEachLeaves(rest: seq<Value>, done: seq<Value>, subs: seq<Value>)
    requires Star !in subs && Star !in done
    requires forall x :: x in done ==> x in subs
    ensures forall leaf :: leaf in ExpandEach(rest, done, subs) ==>
              LeafAfter(leaf, NonStars(rest), StarCount(rest) + 1, subs)
    decreases StarCount(rest) + 1, 0, |done|
  {
    if done != [] {
      var sub := done[|done| - 1];
      var fixed := NonStars(rest);
      StarCountAppend(rest, [sub]);
      assert StarCount([sub]) == 0 by {
        assert [sub][..0] == [];
      }
      NonStarsAppend(rest, [sub]);
      assert NonStars([sub]) == [sub] by {
        assert [sub][..0] == [];
      }
      ExpandEachLeaves(rest, done[..|done| - 1], subs);
      ExpandLeaves(rest + [sub], subs);
      forall leaf | leaf in Expand(rest + [sub], subs)
        ensures LeafAfter(leaf, fixed, StarCount(rest) + 1, subs)
      {
        assert LeafOf(leaf, rest + [sub], subs);
        LeafShift(leaf, fixed, sub, StarCount(rest), subs);
      }
    }
  }

  /** A list after `fixed + [sub]` is a list after `fixed` with one more species group name. */
  lemma LeafShift(leaf: seq<Value>, fixed: seq<Value>, sub: Value, stars: nat, subs: seq<Value>)
    requires LeafAfter(leaf, fixed + [sub], stars, subs) && sub in subs
    ensures LeafAfter(leaf, fixed, stars + 1, subs)
  {
    assert leaf[..|fixed|] == leaf[..|fixed| + 1][..|fixed|];
    assert leaf[|fixed|] == leaf[..|fixed| + 1][|fixed|];
  }

  /**
   * The ids a list of names resolves to. By species group name (`atomic_str` false):
   * each name's position, or ValueError for a name that is no species group. By
   * element (`atomic_str` true): an element found in a species group raises KeyError
   * while the warning is formatted (it indexes the per-type name table with the group
   * id), so only lists naming no known element succeed, with no ids.
   */
  function Resolve(leaf: seq<Value>, names: seq<Value>, groups: seq<seq<Value>>, atomic: bool): (r: Result<seq<int>, Failure>)
    ensures r.Ok? && !atomic ==> |r.value| == |leaf| && forall k :: 0 <= k < |leaf| ==> 0 <= r.value[k] < |names| && names[r.value[k]] == leaf[k]
    ensures r.Ok? && atomic ==> r.value == []
    ensures !atomic ==> (r.Ok? <==> forall k :: 0 <= k < |leaf| ==> leaf[k] in names)
    ensures atomic ==> (r.Ok? <==> forall k, g :: 0 <= k < |leaf| && 0 <= g < |groups| ==> leaf[k] !in groups[g])
  {
    if atomic then
      if forall k, g :: 0 <= k < |leaf| && 0 <= g < |groups| ==> leaf[k] !in groups[g] then Ok([]) else Err(KeyError)
    else if forall k :: 0 <= k < |leaf| ==> leaf[k] in names then
      Ok(seq(|leaf|, k requires 0 <= k < |leaf| => FirstIndex(names, leaf[k])))
    else Err(ValueError)
  }

  /** Every list resolves. */
  predicate AllResolve(leaves: seq<seq<Value>>, names: seq<Value>, groups: seq<seq<Value>>, atomic: bool) {
    forall k :: 0 <= k < |leaves| ==> Resolve(leaves[k], names, groups, atomic).Ok?
  }

  /** The tuples appended before the first list that fails to resolve. */
  function Resolved(leaves: seq<seq<Value>>, names: seq<Value>, groups: seq<seq<Value>>, atomic: bool): (r: seq<seq<int>>)
    ensures |r| <= |leaves|
  {
    if leaves == [] then []
    else match Resolve(leaves[0], names, groups, atomic)
      case Ok(gid) => [gid] + Resolved(leaves[1..], names, groups, atomic)
      case Err(_) => []
  }

  /** A non-empty list of lists all resolves exactly when its head and its tail do. */
  lemma AllResolveCons(leaves: seq<seq<Value>>, names: seq<Value>, groups: seq<seq<Value>>, atomic: bool)
    requires leaves != []
    ensures AllResolve(leaves, names, groups, atomic) <==>
              Resolve(leaves[0], names, groups, atomic).Ok? && AllResolve(leaves[1..], names, groups, atomic)
  {
    assert forall k :: 1 <= k < |leaves| ==> leaves[k] == leaves[1..][k - 1];
  }

  /**
   * The appended tuples are the resolutions of a prefix of the lists, and they are
   * all of them exactly when every list resolves.
   */
  lemma {:induction false} ResolvedPrefix(leaves: seq<seq<Value>>, names: seq<Value>, groups: seq<seq<Value>>, atomic: bool)
    ensures forall k :: 0 <= k < |Resolved(leaves, names, groups, atomic)| ==>
              Resolve(leaves[k], names, groups, atomic) == Ok(Resolved(leaves, names, groups, atomic)[k])
    ensures |Resolved(leaves, names, groups, atomic)| == |leaves| <==> AllResolve(leaves, names, groups, atomic)
    decreases |leaves|
  {
    if leaves != [] {
      AllResolveCons(leaves, names, groups, atomic);
      var r := Resolve(leaves[0], names, groups, atomic);
      if r.Ok? {
        var rest := Resolved(leaves[1..], names, groups, atomic);
        ResolvedPrefix(leaves[1..], names, groups, atomic);
        assert Resolved(leaves, names, groups, atomic) == [r.value] + rest;
        forall k | 1 <= k < |rest| + 1
          ensures Resolve(leaves[k], names, groups, atomic) == Ok(([r.value] + rest)[k])
        {
          assert leaves[k] == leaves[1..][k - 1];
        }
      }
    }
  }

  /** Resolving a concatenation resolves the first part, then the second if the first succeeded. */
  lemma {:induction false} ResolvedAppend(a: seq<seq<Value>>, b: seq<seq<Value>>, names: seq<Value>, groups: seq<seq<Value>>, atomic: bool)
    ensures AllResolve(a, names, groups, atomic) ==>
              Resolved(a + b, names, groups, atomic) == Resolved(a, names, groups, atomic) + Resolved(b, names, groups, atomic)
    ensures !AllResolve(a, names, groups, atomic) ==>
              Resolved(a + b, names, groups, atomic) == Resolved(a, names, groups, atomic)
    decreases |a|
  {
    if a == [] {
      assert a + b == b;
    } else {
      AllResolveCons(a, names, groups, atomic);
      assert (a + b)[0] == a[0];
      assert (a + b)[1..] == a[1..] + b;
      ResolvedAppend(a[1..], b, names, groups, atomic);
    }
  }

  /** A concatenation all resolves exactly when both parts do. */
  lemma AllResolveAppend(a: seq<seq<Value>>, b: seq<seq<Value>>, names: seq<Value>, groups: seq<seq<Value>>, atomic: bool)
    ensures AllResolve(a + b, names, groups, atomic) <==> AllResolve(a, names, groups, atomic) && AllResolve(b, names, groups, atomic)
  {
    assert forall k :: 0 <= k < |a| ==> (a + b)[k] == a[k];
    assert forall k :: 0 <= k < |b| ==> (a + b)[|a| + k] == b[k];
  }

  /**
   * One more name of the loop over the species group names: while the expansions so
   * far all resolve, the next name's expansions are resolved and appended after them.
   */
  lemma ResolvedStep(rest: seq<Value>, subs: seq<Value>, i: nat, groups: seq<seq<Value>>, atomic: bool)
    requires Star !in subs && i < |subs|
    requires Star !in subs[..i] && AllResolve(ExpandEach(rest, subs[..i], subs), subs, groups, atomic)
    ensures Star !in subs[..i + 1]
    ensures Resolved(ExpandEach(rest, subs[..i + 1], subs), subs, groups, atomic)
         == Resolved(ExpandEach(rest, subs[..i], subs), subs, groups, atomic) + Resolved(Expand(rest + [subs[i]], subs), subs, groups, atomic)
    ensures AllResolve(ExpandEach(rest, subs[..i + 1], subs), subs, groups, atomic)
        <==> AllResolve(Expand(rest + [subs[i]], subs), subs, groups, atomic)
  {
    ExpandEachStep(rest, subs, i);
    ResolvedAppend(ExpandEach(rest, subs[..i], subs), Expand(rest + [subs[i]], subs), subs, groups, atomic);
    AllResolveAppend(ExpandEach(rest, subs[..i], subs), Expand(rest + [subs[i]], subs), subs, groups, atomic);
  }

  /**
   * Once the expansions for the first `j` names fail to resolve, the later names
   * append nothing more and the whole expansion fails too.
   */
  lemma {:induction false} ResolvedStops(rest: seq<Value>, done: seq<Value>, j: nat, subs: seq<Value>,
                                         names: seq<Value>, groups: seq<seq<Value>>, atomic: bool)
    requires Star !in subs && Star !in done && j <= |done|
    requires Star !in done[..j] && !AllResolve(ExpandEach(rest, done[..j], subs), names, groups, atomic)
    ensures Resolved(ExpandEach(rest, done, subs), names, groups, atomic) == Resolved(ExpandEach(rest, done[..j], subs), names, groups, atomic)
    ensures !AllResolve(ExpandEach(rest, done, subs), names, groups, atomic)
    decreases |done|
  {
    if j < |done| {
      var init := done[..|done| - 1];
      assert init[..j] == done[..j];
      ResolvedStops(rest, init, j, subs, names, groups, atomic);
      var last := Expand(rest + [done[|done| - 1]], subs);
      ExpandEachLast(rest, done, subs);
      ResolvedAppend(ExpandEach(rest, init, subs), last, names, groups, atomic);
      AllResolveAppend(ExpandEach(rest, init, subs), last, names, groups, atomic);
    } else {
      assert done[..j] == done;
    }
  }

  /**
   * Defining by species group name is all or nothing: every expanded list resolves
   * exactly when every non-`*` entry of the pattern names a species group, and
   * otherwise nothing is appended.
   */
  lemma AllOrNothing(es: seq<Value>, names: seq<Value>, groups: seq<seq<Value>>)
    requires Star !in names && |names| > 0
    ensures AllResolve(Expand(es, names), names, groups, false) <==> forall x :: x in NonStars(es) ==> x in names
    ensures !AllResolve(Expand(es, names), names, groups, false) ==> Resolved(Expand(es, names), names, groups, false) == []
  {
    var leaves := Expand(es, names);
    var fixed := NonStars(es);
    ExpandLeaves(es, names);
    ExpandCount(es, names);
    if Star !in es {
      StarCountZero(es);
    } else {
      assert StarCount(es) > 0 by {
        StarCountZero(es);
      }
    }
    forall k | 0 <= k < |leaves|
      ensures Resolve(leaves[k], names, groups, false).Ok? <==> forall x :: x in fixed ==> x in names
    {
      var leaf := leaves[k];
      assert LeafOf(leaf, es, names);
      if forall x :: x in fixed ==> x in names {
        forall j | 0 <= j < |leaf|
          ensures leaf[j] in names
        {
          if j < |fixed| {
            assert leaf[j] == leaf[..|fixed|][j];
          }
        }
      } else {
        var x :| x in fixed && x !in names;
        var j :| 0 <= j < |fixed| && fixed[j] == x;
        assert leaf[j] == leaf[..|fixed|][j];
      }
    }
    PowPositive(|names|, StarCount(es));
    assert |leaves| > 0;
    if forall x :: x in fixed ==> x in names {
      assert AllResolve(leaves, names, groups, false);
    } else {
      assert !Resolve(leaves[0], names, groups, false).Ok?;
      assert !AllResolve(leaves, names, groups, false);
      assert Resolved(leaves, names, groups, false) == [];
    }
  }

  lemma {:induction false} PowPositive(b: nat, e: nat)
    ensures b > 0 || e == 0 ==> Pow(b, e) > 0
    ensures b == 0 && e > 0 ==> Pow(b, e) == 0
  {
    if e > 0 {
      PowPositive(b, e - 1);
    }
  }
}
