/**
 * The stateful builder of the hyperparameter mask: the per-type registries of group
 * names and members that `define_group` fills, the parameter tables that
 * `set_parameters` writes, the masks and per-group lists that `print_group` leaves,
 * and the `hyps_mask` dictionary `generate_dict` assembles from them.
 */
module Masking {
  import opened Wrappers
  import opened MaskTypes
  import opened MaskIndex
  import opened Wildcard
  import opened HypsVector
  import opened MaskDict
  import opened MaskCheck
  import opened GroupParts
  import Seqs

  /** A parameter value as the callers pass it: a single number or a list of numbers. */
  datatype Param = Scalar(x: real) | Vec(xs: seq<real>)

  /** What `np.hstack` appends for the noise: the number itself, or the list's entries. */
  function NoiseValues(p: Param): (r: seq<real>)
    ensures p.Scalar? ==> r == [p.x]
    ensures p.Vec? ==> r == p.xs
  {
    match p
    case Scalar(x) => [x]
    case Vec(xs) => xs
  }

  /** What `list_sweeping` is handed: a list or string, or a dictionary from names to lists. */
  datatype Arg = Plain(v: Value) | Dict(entries: seq<(string, Value)>)

  /** A registry holding one entry per group type, as the builder's per-type dictionaries do. */
  datatype ByType<V> = ByType(specie: V, bond: V, triplet: V, cut3b: V, mb: V) {
    function At(t: GroupType): V {
      match t
      case Specie => specie
      case Bond => bond
      case Triplet => triplet
      case Cut3b => cut3b
      case Mb => mb
    }

    function With(t: GroupType, v: V): (r: ByType<V>)
      ensures r.At(t) == v && forall u :: u != t ==> r.At(u) == At(u)
    {
      match t
      case Specie => this.(specie := v)
      case Bond => this.(bond := v)
      case Triplet => this.(triplet := v)
      case Cut3b => this.(cut3b := v)
      case Mb => this.(mb := v)
    }
  }

  lemma WithTwice<V>(b: ByType<V>, t: GroupType, x: V, y: V)
    ensures b.With(t, x).With(t, y) == b.With(t, y)
  {
  }

  function Uniform<V>(v: V): (r: ByType<V>)
    ensures forall t :: r.At(t) == v
  {
    ByType(v, v, v, v, v)
  }

  /** No element sits in two groups, nor twice in one group. */
  predicate Disjoint(groups: seq<seq<Value>>) {
    forall g, i, g2, i2 ::
      (0 <= g < |groups| && 0 <= i < |groups[g]| && 0 <= g2 < |groups| && 0 <= i2 < |groups[g2]|
       && groups[g][i] == groups[g2][i2]) ==> g == g2 && i == i2
  }

  /** The list of group names after `name` is registered: appended unless present. */
  function Registered(names: seq<Value>, name: Value): (r: seq<Value>)
    ensures name in r && (forall x :: x in names ==> x in r)
    ensures Seqs.Distinct(names) ==> Seqs.Distinct(r)
    ensures |r| == if name in names then |names| else |names| + 1
    ensures names == r[..|names|]
  {
    if name in names then names else names + [name]
  }

  /** The id a registered name refers to: its first position. */
  function GroupId(names: seq<Value>, name: Value): (r: nat)
    ensures r < |Registered(names, name)| && Registered(names, name)[r] == name
    ensures name in names ==> r < |names| && name !in names[..r]
  {
    if name in names then FirstIndex(names, name) else |names|
  }

  /** `added` appended to the group `gid`. */
  function Appended<T>(groups: seq<seq<T>>, gid: nat, added: seq<T>): (r: seq<seq<T>>)
    requires gid < |groups|
    ensures |r| == |groups| && r[gid] == groups[gid] + added
    ensures forall g :: 0 <= g < |groups| && g != gid ==> r[g] == groups[g]
  {
    groups[gid := groups[gid] + added]
  }

  lemma AppendedTwice<T>(groups: seq<seq<T>>, gid: nat, a: seq<T>, b: seq<T>)
    requires gid < |groups|
    ensures Appended(Appended(groups, gid, a), gid, b) == Appended(groups, gid, a + b)
  {
    assert groups[gid] + a + b == groups[gid] + (a + b);
  }

  lemma AppendedNothing<T>(groups: seq<seq<T>>, gid: nat)
    requires gid < |groups|
    ensures Appended(groups, gid, []) == groups
  {
    assert groups[gid] + [] == groups[gid];
  }

  /**
   * The tuple registries `g`, `m` are `g0`, `m0` with the tuples `added` appended to
   * group `gid` of type `t` and to that type's list of all tuples.
   */
  predicate TuplesAppended(g: ByType<seq<seq<seq<int>>>>, m: ByType<seq<seq<int>>>,
                           g0: ByType<seq<seq<seq<int>>>>, m0: ByType<seq<seq<int>>>,
                           t: GroupType, gid: nat, added: seq<seq<int>>)
  {
    gid < |g0.At(t)|
    && g == g0.With(t, Appended(g0.At(t), gid, added))
    && m == m0.With(t, m0.At(t) + added)
  }

  lemma TuplesAppendedNothing(g0: ByType<seq<seq<seq<int>>>>, m0: ByType<seq<seq<int>>>, t: GroupType, gid: nat)
    requires gid < |g0.At(t)|
    ensures TuplesAppended(g0, m0, g0, m0, t, gid, [])
  {
    AppendedNothing(g0.At(t), gid);
    assert m0.At(t) + [] == m0.At(t);
  }

  lemma TuplesAppendedTwice(g: ByType<seq<seq<seq<int>>>>, m: ByType<seq<seq<int>>>,
                            g1: ByType<seq<seq<seq<int>>>>, m1: ByType<seq<seq<int>>>,
                            g0: ByType<seq<seq<seq<int>>>>, m0: ByType<seq<seq<int>>>,
                            t: GroupType, gid: nat, a: seq<seq<int>>, b: seq<seq<int>>)
    requires TuplesAppended(g1, m1, g0, m0, t, gid, a) && TuplesAppended(g, m, g1, m1, t, gid, b)
    ensures TuplesAppended(g, m, g0, m0, t, gid, a + b)
  {
    AppendedTwice(g0.At(t), gid, a, b);
    WithTwice(g0, t, Appended(g0.At(t), gid, a), Appended(g0.At(t), gid, a + b));
    Seqs.AppendAssoc(m0.At(t), a, b);
    WithTwice(m0, t, m0.At(t) + a, m0.At(t) + (a + b));
  }

  /**
   * The tuple registries after defining the expanded lists `leaves`: the tuples of
   * the lists up to the first that fails to resolve are appended, and the failure,
   * if any, is KeyError for element lookups and ValueError for group-name lookups.
   */
  predicate LeavesDefined(g: ByType<seq<seq<seq<int>>>>, m: ByType<seq<seq<int>>>,
                          g0: ByType<seq<seq<seq<int>>>>, m0: ByType<seq<seq<int>>>,
                          t: GroupType, gid: nat, leaves: seq<seq<Value>>,
                          subs: seq<Value>, groups: seq<seq<Value>>, atomic: bool, r: Result<(), Failure>)
  {
    TuplesAppended(g, m, g0, m0, t, gid, Resolved(leaves, subs, groups, atomic))
    && (r.Ok? <==> AllResolve(leaves, subs, groups, atomic))
    && (r.Err? ==> r.error == if atomic then KeyError else ValueError)
    && (r.Ok? ==> r == Ok(()))
  }

  /**
   * The tuple branch of `define_group` after registration: no species group yet
   * raises RuntimeError; a string holding `*` cannot have it popped (AttributeError);
   * otherwise the element list, or the string's characters, are expanded and defined.
   */
  predicate TupleBranch(g: ByType<seq<seq<seq<int>>>>, m: ByType<seq<seq<int>>>,
                        g0: ByType<seq<seq<seq<int>>>>, m0: ByType<seq<seq<int>>>,
                        t: GroupType, gid: nat, elements: Value,
                        subs: seq<Value>, groups: seq<seq<Value>>, atomic: bool, r: Result<(), Failure>)
    requires Star !in subs
  {
    if subs == [] then r == Err(RuntimeError) && g == g0 && m == m0
    else if elements.Str? && '*' in elements.s then r == Err(AttributeError) && g == g0 && m == m0
    else LeavesDefined(g, m, g0, m0, t, gid, Expand(Iter(elements), subs), subs, groups, atomic, r)
  }

  /**
   * The species registries after the species branch of `define_group`: the `k`
   * elements appended are the longest prefix of `es` whose elements are new, and
   * the first element already present raises AssertionError.
   */
  predicate SpeciesAppended(groups: seq<seq<Value>>, members: seq<Value>, groups0: seq<seq<Value>>, members0: seq<Value>,
                            gid: nat, es: seq<Value>, r: Result<(), Failure>)
  {
    var k := |members| - |members0|;
    gid < |groups0|
    && 0 <= k <= |es|
    && members == members0 + es[..k]
    && groups == Appended(groups0, gid, es[..k])
    && (forall i :: 0 <= i < k ==> es[i] !in members0 + es[..i])
    && (r.Ok? <==> k == |es|)
    && (k < |es| ==> es[k] in members0 + es[..k] && r == Err(AssertionError))
    && (r.Ok? ==> r == Ok(()))
  }

  /** The elements a species entry of `list_sweeping` defines: a list's items, or the entry alone. */
  function SpecieEntry(v: Value): seq<Value> {
    if v.List? then v.items else [v]
  }

  /** The name `list_sweeping` gives the `idg`-th group of a list: `f"{group_type}_{idg}"`. */
  function SweepName(t: GroupType, idg: nat): Value {
    Str(TypeName(t) + "_" + Decimal(idg))
  }

  /** The group names `list_sweeping` defines for its argument, when it raises nothing. */
  function SweptNames(t: GroupType, arg: Arg): seq<Value> {
    match arg
    case Plain(v) =>
      if !v.List? then []
      else if t == Specie then v.items
      else seq(|v.items|, idg requires 0 <= idg < |v.items| => SweepName(t, idg))
    case Dict(entries) => seq(|entries|, k requires 0 <= k < |entries| => Str(entries[k].0))
  }

  /** The group lists after a registration: a new name brings an empty group. */
  function Grown<T>(groups: seq<seq<T>>, isNew: bool): seq<seq<T>> {
    if isNew then groups + [[]] else groups
  }

  // ---- the parameter tables ----

  /** The cutoff step, which every group type runs: a third parameter is the group's cutoff. */
  function CutoffStep(tb: Tables, f: string, xs: seq<real>): (Tables, Result<(), Failure>) {
    if |xs| > 2 then (tb.(cutoff := tb.cutoff[f := xs[2]]), Ok(())) else (tb, Ok(()))
  }

  /**
   * `set_parameters`, one dictionary write after another: a list name cannot be
   * appended to the type key, a number cannot be indexed, and a short parameter or
   * flag list raises IndexError after the writes before it.
   */
  function SetParams(tb: Tables, t: GroupType, name: Value, p: Param, flags: Flags): (Tables, Result<(), Failure>) {
    if name.List? || p.Scalar? then (tb, Err(TypeError))
    else
      var f := TypeName(t) + name.s;
      var fl := FlagList(flags);
      var xs := p.xs;
      if t == Cut3b then CutoffStep(tb, f, xs)
      else if |xs| < 1 then (tb, Err(IndexError))
      else
        var tb1 := tb.(sigma := tb.sigma[f := xs[0]]);
        if |xs| < 2 then (tb1, Err(IndexError))
        else
          var tb2 := tb1.(ls := tb1.ls[f := xs[1]]);
          if |fl| < 1 then (tb2, Err(IndexError))
          else
            var tb3 := tb2.(opt := tb2.opt[f + "sig" := fl[0]]);
            if |fl| < 2 then (tb3, Err(IndexError))
            else CutoffStep(tb3.(opt := tb3.opt[f + "ls" := fl[1]]), f, xs)
  }

  /** The per-group keys end in "sig" or "ls", so they never overwrite the noise flag. */
  lemma SuffixNotNoise(f: string)
    ensures f + "sig" != "noise" && f + "ls" != "noise"
  {
    if |f| == 2 {
      assert (f + "sig")[4] != "noise"[4];
    }
    if |f| == 3 {
      assert (f + "ls")[4] != "noise"[4];
    }
  }

  /**
   * `set_parameters` succeeds exactly for a string name and a list of numbers that,
   * outside `cut3b`, holds a variance and a length scale with two flags; any failure
   * is a TypeError or an IndexError; and the noise flag is never touched.
   */
  lemma {:induction false} SetParamsOutcome(tb: Tables, t: GroupType, name: Value, p: Param, flags: Flags)
    ensures var (tb2, r) := SetParams(tb, t, name, p, flags);
      (r.Ok? <==> name.Str? && p.Vec? && (t != Cut3b ==> |p.xs| >= 2 && |FlagList(flags)| >= 2))
      && (r.Err? ==> r.error == TypeError || r.error == IndexError)
      && ("noise" in tb.opt ==> "noise" in tb2.opt && tb2.opt["noise"] == tb.opt["noise"])
  {
    if name.Str? {
      SuffixNotNoise(TypeName(t) + name.s);
    }
  }

  /**
   * After `set_parameters` succeeds, the lookups `print_group` makes for the group
   * find the values and flags just set, and a third number is the group's cutoff.
   */
  lemma {:induction false} SetParamsWrites(tb: Tables, t: GroupType, name: Value, p: Param, flags: Flags)
    requires SetParams(tb, t, name, p, flags).1.Ok?
    ensures name.Str? && p.Vec?
    ensures var tb2 := SetParams(tb, t, name, p, flags).0;
      var f := TypeName(t) + name.s;
      (t != Cut3b ==>
        f in tb2.sigma && f in tb2.ls && f + "sig" in tb2.opt && f + "ls" in tb2.opt
        && tb2.sigma[f] == p.xs[0] && tb2.ls[f] == p.xs[1]
        && tb2.opt[f + "sig"] == FlagList(flags)[0] && tb2.opt[f + "ls"] == FlagList(flags)[1])
      && (|p.xs| > 2 ==> f in tb2.cutoff && tb2.cutoff[f] == p.xs[2])
      && (|p.xs| <= 2 ==> tb2.cutoff == tb.cutoff)
  {
    var f := TypeName(t) + name.s;
    if t != Cut3b {
      assert f + "sig" != f + "ls" by {
        assert (f + "sig")[|f|] != (f + "ls")[|f|];
      }
    }
  }

  /** Whatever the outcome, no entry other than the group's own keys changes. */
  lemma {:induction false} SetParamsFrame(tb: Tables, t: GroupType, name: Value, p: Param, flags: Flags)
    requires name.Str?
    ensures var tb2 := SetParams(tb, t, name, p, flags).0;
      var f := TypeName(t) + name.s;
      (forall k :: k in tb.sigma && k != f ==> k in tb2.sigma && tb2.sigma[k] == tb.sigma[k])
      && (forall k :: k in tb.ls && k != f ==> k in tb2.ls && tb2.ls[k] == tb.ls[k])
      && (forall k :: k in tb.cutoff && k != f ==> k in tb2.cutoff && tb2.cutoff[k] == tb.cutoff[k])
      && (forall k :: k in tb.opt && k != f + "sig" && k != f + "ls" ==> k in tb2.opt && tb2.opt[k] == tb.opt[k])
  {
  }

  /** The group type whose names `list_parameters` searches first for a parameter name. */
  function ParamType(names: ByType<seq<Value>>, name: Value): (r: Option<GroupType>)
    ensures r.Some? ==> r.value != Specie && name in names.At(r.value)
    ensures r.None? ==> name !in names.bond && name !in names.triplet && name !in names.mb && name !in names.cut3b
  {
    if name in names.bond then Some(Bond)
    else if name in names.triplet then Some(Triplet)
    else if name in names.mb then Some(Mb)
    else if name in names.cut3b then Some(Cut3b)
    else None
  }

  /** The tables, the noise, and the outcome so far of `list_parameters`. */
  datatype Setting = Setting(tables: Tables, noise: Param, r: Result<(), Failure>)

  /** The flags `constraint.get(name, True)` gives a parameter. */
  function FlagsFor(constraint: map<string, Flags>, name: string): Flags {
    if name in constraint then constraint[name] else Both(true)
  }

  /**
   * One entry of `list_parameters`: a name registered for a group type is set
   * there (the types searched in the order bond, triplet, many-body, cut3b), the
   * name "noise" also replaces the noise, and any other name is skipped.
   */
  function ParamStep(tb: Tables, noise: Param, names: ByType<seq<Value>>, name: string, p: Param,
                     constraint: map<string, Flags>): Setting
  {
    var (tb1, r) := match ParamType(names, Str(name))
                    case Some(t) => SetParams(tb, t, Str(name), p, FlagsFor(constraint, name))
                    case None => (tb, Ok(()));
    if r.Err? then Setting(tb1, noise, r)
    else Setting(tb1, if name == "noise" then p else noise, Ok(()))
  }

  /** `list_parameters` over the entries in order, stopping at the first that raises. */
  function ApplyParams(tb: Tables, noise: Param, names: ByType<seq<Value>>, para: seq<(string, Param)>,
                       constraint: map<string, Flags>): Setting
  {
    if para == [] then Setting(tb, noise, Ok(()))
    else
      var s := ApplyParams(tb, noise, names, para[..|para| - 1], constraint);
      if s.r.Err? then s
      else ParamStep(s.tables, s.noise, names, para[|para| - 1].0, para[|para| - 1].1, constraint)
  }

  /** No entry of `list_parameters` turns the noise flag off, and what it raises comes from `set_parameters`. */
  lemma {:induction false} ApplyParamsKeepsNoise(tb: Tables, noise: Param, names: ByType<seq<Value>>,
                                                 para: seq<(string, Param)>, constraint: map<string, Flags>)
    requires "noise" in tb.opt && tb.opt["noise"]
    ensures var s := ApplyParams(tb, noise, names, para, constraint);
      "noise" in s.tables.opt && s.tables.opt["noise"]
      && (s.r.Err? ==> s.r.error == TypeError || s.r.error == IndexError)
  {
    if para != [] {
      var init := para[..|para| - 1];
      ApplyParamsKeepsNoise(tb, noise, names, init, constraint);
      var s := ApplyParams(tb, noise, names, init, constraint);
      var (name, p) := para[|para| - 1];
      var t := ParamType(names, Str(name));
      if s.r.Ok? && t.Some? {
        SetParamsOutcome(s.tables, t.value, Str(name), p, FlagsFor(constraint, name));
      }
    }
  }

  /** After an entry raises, the later entries change nothing. */
  lemma {:induction false} ApplyParamsStops(tb: Tables, noise: Param, names: ByType<seq<Value>>,
                                            para: seq<(string, Param)>, more: seq<(string, Param)>,
                                            constraint: map<string, Flags>)
    requires ApplyParams(tb, noise, names, para, constraint).r.Err?
    ensures ApplyParams(tb, noise, names, para + more, constraint) == ApplyParams(tb, noise, names, para, constraint)
    decreases |more|
  {
    if more != [] {
      var init := more[..|more| - 1];
      ApplyParamsStops(tb, noise, names, para, init, constraint);
      assert (para + more)[..|para + more| - 1] == para + init;
    } else {
      assert para + more == para;
    }
  }

  /**
   * A name neither registered for a parameterised type nor "noise" is skipped, and
   * a last entry "noise" that is no group name replaces the noise.
   */
  lemma {:induction false} ApplyParamsSkips(tb: Tables, noise: Param, names: ByType<seq<Value>>,
                                            para: seq<(string, Param)>, name: string, p: Param,
                                            constraint: map<string, Flags>)
    requires ParamType(names, Str(name)).None?
    ensures var s := ApplyParams(tb, noise, names, para, constraint);
      ApplyParams(tb, noise, names, para + [(name, p)], constraint)
      == if s.r.Err? || name != "noise" then s else s.(noise := p)
  {
    assert (para + [(name, p)])[..|para|] == para;
  }

  /** One count per name; names are distinct within a type and never the wildcard. */
  predicate NamesOk(n: ByType<int>, names: ByType<seq<Value>>) {
    (forall t :: n.At(t) == |names.At(t)|)
    && (forall t :: Seqs.Distinct(names.At(t)) && Star !in names.At(t))
    && Star !in names.specie
  }

  /**
   * One species group per name, and every element belongs to exactly one species
   * group: the members are distinct and every group's elements are members.
   */
  predicate SpeciesOk(names: seq<Value>, groups: seq<seq<Value>>, members: seq<Value>) {
    |groups| == |names|
    && Seqs.Distinct(members)
    && (forall g, i :: 0 <= g < |groups| && 0 <= i < |groups[g]| ==> groups[g][i] in members)
    && Disjoint(groups)
  }

  /** One tuple group per name of the other types, and every tuple names existing species groups. */
  predicate TuplesOk(names: ByType<seq<Value>>, tupleGroups: ByType<seq<seq<seq<int>>>>) {
    (forall t :: t != Specie ==> |tupleGroups.At(t)| == |names.At(t)|)
    && (forall t, g :: t != Specie && 0 <= g < |tupleGroups.At(t)| ==> Bounded(tupleGroups.At(t)[g], |names.specie|))
  }

  /** Every appended tuple names species groups that exist. */
  lemma ResolvedBounded(leaves: seq<seq<Value>>, names: seq<Value>, groups: seq<seq<Value>>, atomic: bool)
    ensures Bounded(Resolved(leaves, names, groups, atomic), |names|)
  {
    ResolvedPrefix(leaves, names, groups, atomic);
  }

  // ---- print_group and generate_dict ----

  /** The registry `print_group` reads: counts, names and groups of every type. */
  datatype Registry = Registry(n: ByType<int>, names: ByType<seq<Value>>, specieGroups: seq<seq<Value>>,
                               tupleGroups: ByType<seq<seq<seq<int>>>>)

  predicate RegOk(g: Registry) {
    NamesOk(g.n, g.names) && |g.specieGroups| == |g.names.specie| && TuplesOk(g.names, g.tupleGroups)
  }

  /** The attributes `print_group` and `generate_dict` write. */
  datatype Outputs = Outputs(nspecie: Option<int>, specieMask: Option<seq<int>>, ntriplet: Option<int>,
                             mask: map<GroupType, seq<int>>, hypsSig: map<GroupType, seq<real>>,
                             hypsLs: map<GroupType, seq<real>>, hypsOpt: map<GroupType, seq<bool>>,
                             cutoffList: map<GroupType, seq<real>>, hypsMask: Option<Option<HypsMask>>)

  /**
   * What `print_group` builds for a type other than `specie`: nothing when the type
   * has no group, otherwise its mask, per-group lists and cutoff list.
   */
  function PartFor(g: Registry, t: GroupType, tb: Tables): Result<Option<Part>, Failure>
    requires RegOk(g) && t != Specie
  {
    var groups := g.tupleGroups.At(t);
    var names := g.names.At(t);
    if |groups| == 0 then Ok(None)
    else
      var p := if t == Triplet then TripletPartOf(|g.names.specie|, groups, names, tb)
               else PairPartOf(t, |g.names.specie|, groups, names, tb);
      if p.Err? then Err(p.error) else Ok(Some(p.value))
  }

  /** The attributes a built part is stored in; the triplet branch keeps no cutoff list. */
  function WithPart(o: Outputs, t: GroupType, p: Part): Outputs {
    o.(mask := o.mask[t := p.mask], hypsSig := o.hypsSig[t := p.block.sig], hypsLs := o.hypsLs[t := p.block.ls],
       hypsOpt := o.hypsOpt[t := p.block.opt],
       cutoffList := if t == Triplet then o.cutoffList else o.cutoffList[t := p.cutoffs])
  }

  /**
   * `print_group(t)`: the attributes afterwards and the exception raised, if any.
   * The species branch always sets the count and the mask, and with no species
   * group the final message names an unbound loop variable.
   */
  function Printed(o: Outputs, g: Registry, t: GroupType, tb: Tables, z: Value -> int): (Outputs, Result<(), Failure>)
    requires RegOk(g) && forall v :: 0 <= z(v) < 118
  {
    if t == Specie then
      (o.(nspecie := Some(g.n.specie), specieMask := Some(SpecieMaskOf(g.specieGroups, z))),
       if g.n.specie == 0 then Err(NameError) else Ok(()))
    else PrintedTuples(o, g, t, tb)
  }

  /** `print_group(t)` for a type other than `specie`. */
  function PrintedTuples(o: Outputs, g: Registry, t: GroupType, tb: Tables): (Outputs, Result<(), Failure>)
    requires RegOk(g) && t != Specie
  {
    var o1 := if t == Triplet then o.(ntriplet := Some(g.n.triplet)) else o;
    match PartFor(g, t, tb)
    case Err(e) => (o1, Err(e))
    case Ok(p) => (if p.Some? then WithPart(o1, t, p.value) else o1, Ok(()))
  }

  /** What the registry invariant gives the builders of a type other than `specie`. */
  lemma TuplesReady(g: Registry, t: GroupType)
    requires RegOk(g) && t != Specie
    ensures |g.tupleGroups.At(t)| == |g.names.At(t)| == g.n.At(t)
    ensures AllBounded(g.tupleGroups.At(t), |g.names.specie|)
    ensures g.n.specie == |g.names.specie|
  {
    assert g.n.At(Specie) == g.n.specie && g.names.At(Specie) == g.names.specie;
  }

  /** The builder `print_group` runs for a type other than `specie`, when it has a group. */
  method BuildPart(g: Registry, t: GroupType, tb: Tables) returns (r: Result<Option<Part>, Failure>)
    requires RegOk(g) && t != Specie
    ensures r == PartFor(g, t, tb)
  {
    TuplesReady(g, t);
    if g.n.At(t) == 0 {
      return Ok(None);
    }
    var p;
    if t == Triplet {
      p := BuildTriplets(|g.names.specie|, g.tupleGroups.At(t), g.names.At(t), tb);
    } else {
      p := BuildPairs(t, |g.names.specie|, g.tupleGroups.At(t), g.names.At(t), tb);
    }
    r := if p.Err? then Err(p.error) else Ok(Some(p.value));
  }

  /**
   * The dictionary `generate_dict` assembles from the parts `print_group` built,
   * with the noise and its flag last.
   */
  function DictOf(g: Registry, tb: Tables, noise: Param, z: Value -> int): Result<HypsMask, Failure>
    requires RegOk(g) && (forall v :: 0 <= z(v) < 118) && "noise" in tb.opt
    requires forall t :: t != Specie ==> PartFor(g, t, tb).Ok?
  {
    BuildDict(g.n.specie, SpecieMaskOf(g.specieGroups, z), PartFor(g, Bond, tb).value, PartFor(g, Triplet, tb).value,
              PartFor(g, Mb, tb).value, PartFor(g, Cut3b, tb).value, NoiseValues(noise), tb.opt["noise"])
  }

  /** The five `print_group` calls of `generate_dict`, in order, stopping at the first exception. */
  function PrintAll(o: Outputs, g: Registry, tb: Tables, z: Value -> int): (Outputs, Result<(), Failure>)
    requires RegOk(g) && forall v :: 0 <= z(v) < 118
  {
    var (o1, r1) := Printed(o, g, Specie, tb, z);
    if r1.Err? then (o1, r1) else
    var (o2, r2) := Printed(o1, g, Bond, tb, z);
    if r2.Err? then (o2, r2) else
    var (o3, r3) := Printed(o2, g, Triplet, tb, z);
    if r3.Err? then (o3, r3) else
    var (o4, r4) := Printed(o3, g, Cut3b, tb, z);
    if r4.Err? then (o4, r4) else
    Printed(o4, g, Mb, tb, z)
  }

  /**
   * `generate_dict`: with fewer than two species groups the dictionary is `None`;
   * otherwise the five `print_group` calls, then the dictionary.
   */
  function Generated(o: Outputs, g: Registry, tb: Tables, noise: Param, z: Value -> int): (Outputs, Result<Option<HypsMask>, Failure>)
    requires RegOk(g) && (forall v :: 0 <= z(v) < 118) && "noise" in tb.opt
  {
    if g.n.specie < 2 then (o.(hypsMask := Some(None)), Ok(None))
    else
      var (o5, r5) := PrintAll(o, g, tb, z);
      if r5.Err? then (o5, Err(r5.error)) else
      match DictOf(g, tb, noise, z)
      case Err(e) => (o5, Err(e))
      case Ok(h) => (o5.(hypsMask := Some(Some(h))), Ok(Some(h)))
  }

  /**
   * A part as `generate_dict` reads it back from the attributes: present when the
   * type has a group; the triplet cutoff list is never read.
   */
  function StoredPart(o: Outputs, count: int, t: GroupType): Option<Part> {
    if count >= 1 && t in o.mask && t in o.hypsSig && t in o.hypsLs && t in o.hypsOpt then
      Some(Part(count, o.mask[t], Block(o.hypsSig[t], o.hypsLs[t], o.hypsOpt[t]),
                if t != Triplet && t in o.cutoffList then o.cutoffList[t] else []))
    else None
  }

  /** A successful `print_group(t)` leaves the part of `t` in the attributes. */
  lemma PrintedStores(o: Outputs, g: Registry, t: GroupType, tb: Tables, z: Value -> int)
    requires RegOk(g) && (forall v :: 0 <= z(v) < 118) && t != Specie && Printed(o, g, t, tb, z).1.Ok?
    ensures PartFor(g, t, tb).Ok?
    ensures StoredPart(Printed(o, g, t, tb, z).0, g.n.At(t), t) == PartFor(g, t, tb).value
  {
    TuplesReady(g, t);
  }

  /** `print_group(t)` leaves the species mask of other calls and the part of every other type alone. */
  lemma PrintedKeeps(o: Outputs, g: Registry, t: GroupType, u: GroupType, count: int, tb: Tables, z: Value -> int)
    requires RegOk(g) && (forall v :: 0 <= z(v) < 118) && t != Specie && u != t
    ensures StoredPart(Printed(o, g, t, tb, z).0, count, u) == StoredPart(o, count, u)
    ensures Printed(o, g, t, tb, z).0.specieMask == o.specieMask
  {
    var o1 := if t == Triplet then o.(ntriplet := Some(g.n.triplet)) else o;
    assert StoredPart(o1, count, u) == StoredPart(o, count, u);
    var r := PartFor(g, t, tb);
    if r.Ok? && r.value.Some? {
      WithPartKeeps(o1, t, r.value.value, u, count);
    }
  }

  /** Storing the part of `t` leaves the part of every other type alone. */
  lemma WithPartKeeps(o: Outputs, t: GroupType, p: Part, u: GroupType, count: int)
    requires u != t
    ensures StoredPart(WithPart(o, t, p), count, u) == StoredPart(o, count, u)
    ensures WithPart(o, t, p).specieMask == o.specieMask
  {
  }

  /**
   * When the five calls succeed, every part was built and the attributes hold it,
   * and the species mask is the one of the species groups.
   */
  lemma {:induction false} PrintAllStored(o: Outputs, g: Registry, tb: Tables, z: Value -> int)
    requires RegOk(g) && (forall v :: 0 <= z(v) < 118) && PrintAll(o, g, tb, z).1.Ok?
    ensures forall t :: t != Specie ==> PartFor(g, t, tb).Ok?
    ensures var o5 := PrintAll(o, g, tb, z).0;
      o5.specieMask == Some(SpecieMaskOf(g.specieGroups, z))
      && StoredPart(o5, g.n.bond, Bond) == PartFor(g, Bond, tb).value
      && StoredPart(o5, g.n.triplet, Triplet) == PartFor(g, Triplet, tb).value
      && StoredPart(o5, g.n.cut3b, Cut3b) == PartFor(g, Cut3b, tb).value
      && StoredPart(o5, g.n.mb, Mb) == PartFor(g, Mb, tb).value
  {
    var o1 := Printed(o, g, Specie, tb, z).0;
    var o2 := Printed(o1, g, Bond, tb, z).0;
    var o3 := Printed(o2, g, Triplet, tb, z).0;
    var o4 := Printed(o3, g, Cut3b, tb, z).0;
    var o5 := Printed(o4, g, Mb, tb, z).0;
    assert Printed(o, g, Specie, tb, z).1.Ok? && Printed(o1, g, Bond, tb, z).1.Ok? && Printed(o2, g, Triplet, tb, z).1.Ok?
        && Printed(o3, g, Cut3b, tb, z).1.Ok? && Printed(o4, g, Mb, tb, z).1.Ok? && PrintAll(o, g, tb, z).0 == o5;
    assert g.n.At(Bond) == g.n.bond && g.n.At(Triplet) == g.n.triplet && g.n.At(Cut3b) == g.n.cut3b && g.n.At(Mb) == g.n.mb;
    PrintedStores(o1, g, Bond, tb, z);
    PrintedKeeps(o2, g, Triplet, Bond, g.n.bond, tb, z);
    PrintedKeeps(o3, g, Cut3b, Bond, g.n.bond, tb, z);
    PrintedKeeps(o4, g, Mb, Bond, g.n.bond, tb, z);
    PrintedStores(o2, g, Triplet, tb, z);
    PrintedKeeps(o3, g, Cut3b, Triplet, g.n.triplet, tb, z);
    PrintedKeeps(o4, g, Mb, Triplet, g.n.triplet, tb, z);
    PrintedStores(o3, g, Cut3b, tb, z);
    PrintedKeeps(o4, g, Mb, Cut3b, g.n.cut3b, tb, z);
    PrintedStores(o4, g, Mb, tb, z);
    PrintedKeeps(o1, g, Bond, Mb, 0, tb, z);
    PrintedKeeps(o2, g, Triplet, Mb, 0, tb, z);
    PrintedKeeps(o3, g, Cut3b, Mb, 0, tb, z);
    assert forall t: GroupType :: t.Specie? || t.Bond? || t.Triplet? || t.Cut3b? || t.Mb?;
  }

  /**
   * The end of `generate_dict`: the dictionary read back from the attributes the
   * five calls wrote, stored when it could be built.
   */
  function Assembled(o: Outputs, n: ByType<int>, tb: Tables, noise: Param): (Outputs, Result<Option<HypsMask>, Failure>)
    requires o.specieMask.Some? && "noise" in tb.opt
  {
    var d := BuildDict(n.specie, o.specieMask.value, StoredPart(o, n.bond, Bond), StoredPart(o, n.triplet, Triplet),
                       StoredPart(o, n.mb, Mb), StoredPart(o, n.cut3b, Cut3b), NoiseValues(noise), tb.opt["noise"]);
    if d.Err? then (o, Err(d.error)) else (o.(hypsMask := Some(Some(d.value))), Ok(Some(d.value)))
  }

  /** `generate_dict` past its first test: the five calls, then `Assembled`. */
  lemma {:induction false} GeneratedAfter(o: Outputs, g: Registry, tb: Tables, noise: Param, z: Value -> int)
    requires RegOk(g) && (forall v :: 0 <= z(v) < 118) && "noise" in tb.opt && g.n.specie >= 2
    ensures var (o5, r5) := PrintAll(o, g, tb, z);
      r5.Err? ==> Generated(o, g, tb, noise, z) == (o5, Err(r5.error))
    ensures var (o5, r5) := PrintAll(o, g, tb, z);
      r5.Ok? ==> o5.specieMask.Some? && Generated(o, g, tb, noise, z) == Assembled(o5, g.n, tb, noise)
  {
    if PrintAll(o, g, tb, z).1.Ok? {
      PrintAllStored(o, g, tb, z);
    }
  }

  /** Every part `print_group` builds has the shape `check_instantiation` expects. */
  lemma {:induction false} PartForShaped(g: Registry, t: GroupType, tb: Tables)
    requires RegOk(g) && t != Specie && PartFor(g, t, tb).Ok?
    ensures t == Triplet ==> TripletPartOpt(PartFor(g, t, tb).value, |g.names.specie|)
    ensures t != Triplet && t != Cut3b ==> PairPartOpt(PartFor(g, t, tb).value, |g.names.specie|)
    ensures PartFor(g, t, tb).value.Some? <==> g.n.At(t) >= 1
  {
    var groups := g.tupleGroups.At(t);
    var names := g.names.At(t);
    if |groups| > 0 {
      if t == Triplet {
        TripletPartShaped(|g.names.specie|, groups, names, tb);
      } else if t != Cut3b {
        PairPartShaped(t, |g.names.specie|, groups, names, tb);
      }
    }
  }

  /** With two species groups and every part built, `generate_dict` returns what `DictOf` assembles. */
  lemma {:induction false} GeneratedDict(o: Outputs, g: Registry, tb: Tables, noise: Param, z: Value -> int)
    requires RegOk(g) && (forall v :: 0 <= z(v) < 118) && "noise" in tb.opt
    requires g.n.specie >= 2 && forall t :: t != Specie ==> PartFor(g, t, tb).Ok?
    ensures Generated(o, g, tb, noise, z).1 == if DictOf(g, tb, noise, z).Err? then Err(DictOf(g, tb, noise, z).error)
                                              else Ok(Some(DictOf(g, tb, noise, z).value))
  {
    var o1 := Printed(o, g, Specie, tb, z).0;
    var o2 := Printed(o1, g, Bond, tb, z).0;
    var o3 := Printed(o2, g, Triplet, tb, z).0;
    var o4 := Printed(o3, g, Cut3b, tb, z).0;
    assert Printed(o, g, Specie, tb, z).1.Ok?;
    assert Printed(o1, g, Bond, tb, z).1.Ok? && Printed(o2, g, Triplet, tb, z).1.Ok?;
    assert Printed(o3, g, Cut3b, tb, z).1.Ok? && Printed(o4, g, Mb, tb, z).1.Ok?;
    assert PrintAll(o, g, tb, z).1.Ok?;
  }

  /**
   * `generate_dict` succeeds exactly when there are fewer than two species groups,
   * or every `print_group` succeeds and the vector can be stacked; the dictionary
   * it returns is then `DictOf` of the registry and tables.
   */
  lemma {:induction false} GeneratedOk(o: Outputs, g: Registry, tb: Tables, noise: Param, z: Value -> int)
    requires RegOk(g) && (forall v :: 0 <= z(v) < 118) && "noise" in tb.opt
    ensures Generated(o, g, tb, noise, z).1.Ok? <==>
      g.n.specie < 2 || ((forall t :: t != Specie ==> PartFor(g, t, tb).Ok?) && DictOf(g, tb, noise, z).Ok?)
    ensures g.n.specie < 2 ==> Generated(o, g, tb, noise, z).1 == Ok(None) && Generated(o, g, tb, noise, z).0 == o.(hypsMask := Some(None))
    ensures g.n.specie >= 2 && Generated(o, g, tb, noise, z).1.Ok? ==>
      Generated(o, g, tb, noise, z).1 == Ok(Some(DictOf(g, tb, noise, z).value))
  {
    if g.n.specie >= 2 {
      if forall t :: t != Specie ==> PartFor(g, t, tb).Ok? {
        GeneratedDict(o, g, tb, noise, z);
      } else {
        if PrintAll(o, g, tb, z).1.Ok? {
          PrintAllStored(o, g, tb, z);
        }
      }
    }
  }

  /**
   * The round trip of the module: when every `print_group` succeeds, the noise is a
   * single value, some bond, triplet or many-body group exists and no three-body
   * group has its own cutoff, `generate_dict` returns a dictionary and
   * `check_instantiation` accepts it unchanged.
   */
  lemma {:induction false} GenerateDictAccepted(o: Outputs, g: Registry, tb: Tables, noise: Param, z: Value -> int)
    requires RegOk(g) && (forall v :: 0 <= z(v) < 118) && "noise" in tb.opt && tb.opt["noise"]
    requires g.n.specie >= 2 && |NoiseValues(noise)| == 1
    requires forall t :: t != Specie ==> PartFor(g, t, tb).Ok?
    requires g.n.bond >= 1 || g.n.triplet >= 1 || g.n.mb >= 1
    requires PartFor(g, Cut3b, tb).value.Some? ==> PartFor(g, Cut3b, tb).value.value.cutoffs == []
    ensures var r := Generated(o, g, tb, noise, z).1;
      r.Ok? && r.value.Some? && Instantiation(r.value.value).Ok? && Instantiation(r.value.value).value == Normalised(r.value.value)
  {
    PartForShaped(g, Bond, tb);
    PartForShaped(g, Triplet, tb);
    PartForShaped(g, Mb, tb);
    var s := |g.names.specie|;
    assert g.n.At(Specie) == s;
    var bond, triplet, mb := PartFor(g, Bond, tb).value, PartFor(g, Triplet, tb).value, PartFor(g, Mb, tb).value;
    assert Blocks(bond, triplet, mb) != [] by {
      assert g.n.At(Bond) == g.n.bond && g.n.At(Triplet) == g.n.triplet && g.n.At(Mb) == g.n.mb;
      if bond.Some? { assert Present(bond) != []; }
      else if triplet.Some? { assert Present(triplet) != []; }
      else { assert Present(mb) != []; }
    }
    MaskCheck.GeneratedAccepted(s, SpecieMaskOf(g.specieGroups, z), bond, triplet, mb, PartFor(g, Cut3b, tb).value, NoiseValues(noise));
    GeneratedDict(o, g, tb, noise, z);
  }

  /** A three-body cutoff list makes whatever `generate_dict` returns fail `check_instantiation`. */
  lemma {:induction false} GeneratedCut3bRejected(o: Outputs, g: Registry, tb: Tables, noise: Param, z: Value -> int)
    requires RegOk(g) && (forall v :: 0 <= z(v) < 118) && "noise" in tb.opt
    requires Generated(o, g, tb, noise, z).1.Ok? && Generated(o, g, tb, noise, z).1.value.Some?
    requires PartFor(g, Cut3b, tb).Ok? && PartFor(g, Cut3b, tb).value.Some?
    requires PartFor(g, Cut3b, tb).value.value.cutoffs != []
    ensures Instantiation(Generated(o, g, tb, noise, z).1.value.value).Err?
  {
    assert forall t :: t != Specie ==> PartFor(g, t, tb).Ok?;
    GeneratedDict(o, g, tb, noise, z);
    Cut3bRejected(g.n.specie, SpecieMaskOf(g.specieGroups, z), PartFor(g, Bond, tb).value, PartFor(g, Triplet, tb).value,
                  PartFor(g, Mb, tb).value, PartFor(g, Cut3b, tb).value, NoiseValues(noise), tb.opt["noise"]);
  }

  /** Every name each given `list_sweeping` argument defines is registered under its type. */
  predicate AllSwept(names: ByType<seq<Value>>, specie: Arg, bond: Option<Arg>, triplet: Option<Arg>, cut3b: Option<Arg>,
                     mb: Option<Arg>)
  {
    (forall x :: x in SweptNames(Specie, specie) ==> x in names.specie)
    && (bond.Some? ==> forall x :: x in SweptNames(Bond, bond.value) ==> x in names.bond)
    && (triplet.Some? ==> forall x :: x in SweptNames(Triplet, triplet.value) ==> x in names.triplet)
    && (cut3b.Some? ==> forall x :: x in SweptNames(Cut3b, cut3b.value) ==> x in names.cut3b)
    && (mb.Some? ==> forall x :: x in SweptNames(Mb, mb.value) ==> x in names.mb)
  }

  /** One `list_sweeping(t, arg)` call (none when `arg` is absent) registered the names of `arg` and no other type's. */
  predicate SweptStep(before: ByType<seq<Value>>, after: ByType<seq<Value>>, t: GroupType, arg: Option<Arg>) {
    && (forall u :: u != t ==> after.At(u) == before.At(u))
    && (arg.Some? ==> forall x :: x in SweptNames(t, arg.value) ==> x in after.At(t))
  }

  /** The sweeps of `__init__`, one type after the other, register every name they were given. */
  lemma AllSweptChain(n1: ByType<seq<Value>>, n2: ByType<seq<Value>>, n3: ByType<seq<Value>>,
                      n4: ByType<seq<Value>>, n5: ByType<seq<Value>>,
                      specie: Arg, bond: Option<Arg>, triplet: Option<Arg>, cut3b: Option<Arg>, mb: Option<Arg>)
    requires forall x :: x in SweptNames(Specie, specie) ==> x in n1.specie
    requires SweptStep(n1, n2, Bond, bond) && SweptStep(n2, n3, Triplet, triplet)
    requires SweptStep(n3, n4, Cut3b, cut3b) && SweptStep(n4, n5, Mb, mb)
    ensures AllSwept(n5, specie, bond, triplet, cut3b, mb)
  {
    assert n5.specie == n4.At(Specie) == n3.At(Specie) == n2.At(Specie) == n1.At(Specie);
    assert n5.bond == n4.At(Bond) == n3.At(Bond) == n2.At(Bond);
    assert n5.triplet == n4.At(Triplet) == n3.At(Triplet);
    assert n5.cut3b == n4.At(Cut3b);
  }

  /**
   * The dictionary `generate_dict` stored: `None` with fewer than two species
   * groups, otherwise `DictOf` of the registry and tables, every part built.
   */
  predicate DictKept(hypsMask: Option<Option<HypsMask>>, g: Registry, tb: Tables, noise: Param, z: Value -> int)
    requires RegOk(g) && (forall v :: 0 <= z(v) < 118) && "noise" in tb.opt
  {
    if g.n.specie < 2 then hypsMask == Some(None)
    else
      (forall t :: t != Specie ==> PartFor(g, t, tb).Ok?) && DictOf(g, tb, noise, z).Ok?
      && hypsMask == Some(Some(DictOf(g, tb, noise, z).value))
  }

  // ---- the builder ----

  class ParameterMasking {
    /** `n`: the number of groups of each type. */
    var n: ByType<int>
    /** `all_group_names`: the group names of each type, in definition order. */
    var names: ByType<seq<Value>>
    /** `groups['specie']`: the elements of each species group. */
    var specieGroups: seq<seq<Value>>
    /** `all_members['specie']`: every element, in definition order. */
    var specieMembers: seq<Value>
    /** `groups[t]` for the other types: the species-group tuples of each group. */
    var tupleGroups: ByType<seq<seq<seq<int>>>>
    /** `all_members[t]` for the other types: every tuple, in definition order. */
    var tupleMembers: ByType<seq<seq<int>>>
    var sigma: map<string, real>
    var ls: map<string, real>
    var cutoff: map<string, real>
    /** The optimisation flags, keyed by parameter name, with the noise flag under "noise". */
    var opt: map<string, bool>
    var noise: Param
    /** What `print_group` leaves; `None` is an attribute not yet set. */
    var nspecie: Option<int>
    var specieMask: Option<seq<int>>
    var ntriplet: Option<int>
    var mask: map<GroupType, seq<int>>
    var hypsSig: map<GroupType, seq<real>>
    var hypsLs: map<GroupType, seq<real>>
    var hypsOpt: map<GroupType, seq<bool>>
    var cutoffList: map<GroupType, seq<real>>
    /** `hyps_mask`: unset, set to `None`, or set to a dictionary. */
    var hypsMask: Option<Option<HypsMask>>

    /** The noise flag, which nothing turns off. */
    predicate NoiseOn()
      reads this`opt
    {
      "noise" in opt && opt["noise"]
    }

    predicate RegistryOk()
      reads this`n, this`names, this`specieGroups, this`specieMembers, this`tupleGroups, this`tupleMembers
    {
      NamesOk(n, names) && SpeciesOk(names.specie, specieGroups, specieMembers) && TuplesOk(names, tupleGroups)
    }

    twostate predicate RegistryUnchanged()
      reads this
    {
      n == old(n) && names == old(names) && specieGroups == old(specieGroups) && specieMembers == old(specieMembers)
      && tupleGroups == old(tupleGroups) && tupleMembers == old(tupleMembers)
    }

    twostate predicate TablesUnchanged()
      reads this
    {
      sigma == old(sigma) && ls == old(ls) && cutoff == old(cutoff) && opt == old(opt) && noise == old(noise)
    }

    twostate predicate OutputsUnchanged()
      reads this
    {
      nspecie == old(nspecie) && specieMask == old(specieMask) && ntriplet == old(ntriplet) && mask == old(mask)
      && hypsSig == old(hypsSig) && hypsLs == old(hypsLs) && hypsOpt == old(hypsOpt) && cutoffList == old(cutoffList)
      && hypsMask == old(hypsMask)
    }

    /** The tables as one value. */
    function ParamTables(): Tables
      reads this`sigma, this`ls, this`cutoff, this`opt
    {
      Tables(sigma, ls, cutoff, opt)
    }

    /** The part of `__init__` that runs for every instance: empty registries, noise 0.05. */
    constructor ()
      ensures RegistryOk() && NoiseOn()
      ensures forall t :: n.At(t) == 0 && names.At(t) == [] && tupleGroups.At(t) == [] && tupleMembers.At(t) == []
      ensures specieGroups == [] && specieMembers == []
      ensures sigma == map[] && ls == map[] && cutoff == map[] && opt == map["noise" := true] && noise == Scalar(0.05)
      ensures nspecie.None? && specieMask.None? && ntriplet.None? && hypsMask.None?
      ensures mask == map[] && hypsSig == map[] && hypsLs == map[] && hypsOpt == map[] && cutoffList == map[]
    {
      n := Uniform(0);
      names := Uniform([]);
      specieGroups := [];
      specieMembers := [];
      tupleGroups := Uniform([]);
      tupleMembers := Uniform([]);
      sigma := map[];
      ls := map[];
      cutoff := map[];
      opt := map["noise" := true];
      noise := Scalar(0.05);
      nspecie := None;
      specieMask := None;
      ntriplet := None;
      mask := map[];
      hypsSig := map[];
      hypsLs := map[];
      hypsOpt := map[];
      cutoffList := map[];
      hypsMask := None;
    }

    /** `set_parameters`: the writes of `SetParams`, and nothing else. */
    method SetParameters(t: GroupType, name: Value, p: Param, flags: Flags) returns (r: Result<(), Failure>)
      requires NoiseOn()
      modifies this`sigma, this`ls, this`cutoff, this`opt
      ensures NoiseOn()
      ensures (ParamTables(), r) == SetParams(old(ParamTables()), t, name, p, flags)
    {
      ghost var tb := ParamTables();
      if name.List? || p.Scalar? {
        return Err(TypeError);
      }
      var f := TypeName(t) + name.s;
      var fl := FlagList(flags);
      var xs := p.xs;
      SuffixNotNoise(f);
      r := Ok(());
      if t != Cut3b {
        if |xs| < 1 {
          r := Err(IndexError);
        } else {
          sigma := sigma[f := xs[0]];
          if |xs| < 2 {
            r := Err(IndexError);
          } else {
            ls := ls[f := xs[1]];
            if |fl| < 1 {
              r := Err(IndexError);
            } else {
              opt := opt[f + "sig" := fl[0]];
              if |fl| < 2 {
                r := Err(IndexError);
              } else {
                opt := opt[f + "ls" := fl[1]];
              }
            }
          }
        }
      }
      if r.Ok? && |xs| > 2 {
        cutoff := cutoff[f := xs[2]];
      }
    }

    /**
     * `list_parameters(para, constraint)`: the entries applied in order, as
     * `ApplyParams` describes, stopping at the first that raises.
     */
    method ListParameters(para: seq<(string, Param)>, constraint: map<string, Flags>) returns (r: Result<(), Failure>)
      requires NoiseOn()
      modifies this`sigma, this`ls, this`cutoff, this`opt, this`noise
      ensures NoiseOn()
      ensures Setting(ParamTables(), noise, r) == ApplyParams(old(ParamTables()), old(noise), names, para, constraint)
    {
      r := Ok(());
      var i := 0;
      while i < |para| && r.Ok?
        invariant 0 <= i <= |para|
        invariant NoiseOn()
        invariant Setting(ParamTables(), noise, r) == ApplyParams(old(ParamTables()), old(noise), names, para[..i], constraint)
      {
        assert para[..i + 1][..i] == para[..i];
        var (name, p) := para[i];
        var t := ParamType(names, Str(name));
        if t.Some? {
          r := SetParameters(t.value, Str(name), p, FlagsFor(constraint, name));
        }
        if r.Ok? && name == "noise" {
          noise := p;
        }
        i := i + 1;
      }
      if r.Err? {
        ApplyParamsStops(old(ParamTables()), old(noise), names, para[..i], para[i..], constraint);
        assert para[..i] + para[i..] == para;
      } else {
        assert para[..i] == para;
      }
    }

    /**
     * The registration step of `define_group`: a known name keeps its id; a new one
     * is appended with an empty group and the type's count goes up.
     */
    method RegisterName(t: GroupType, name: Value) returns (gid: nat)
      requires RegistryOk() && NoiseOn() && name != Star
      modifies this`n, this`names, this`specieGroups, this`tupleGroups
      ensures RegistryOk()
      ensures gid == GroupId(old(names.At(t)), name)
      ensures names == old(names).With(t, Registered(old(names.At(t)), name))
      ensures n == old(n).With(t, |names.At(t)|)
      ensures t == Specie ==> specieGroups == Grown(old(specieGroups), name !in old(names.At(t))) && tupleGroups == old(tupleGroups)
      ensures t != Specie ==>
        tupleGroups == old(tupleGroups).With(t, Grown(old(tupleGroups.At(t)), name !in old(names.At(t))))
        && specieGroups == old(specieGroups)
    {
      gid := GroupId(names.At(t), name);
      if name !in names.At(t) {
        names := names.With(t, names.At(t) + [name]);
        n := n.With(t, n.At(t) + 1);
        if t == Specie {
          specieGroups := specieGroups + [[]];
        } else {
          tupleGroups := tupleGroups.With(t, tupleGroups.At(t) + [[]]);
        }
      }
    }

    /**
     * The species branch of `define_group`: each element is asserted to be new and
     * then appended to the group and to the members. The `k` elements appended are
     * the longest prefix of fresh elements; the first element already present raises
     * AssertionError.
     */
    method AddSpecies(gid: nat, es: seq<Value>) returns (r: Result<(), Failure>)
      requires RegistryOk() && NoiseOn() && gid < |specieGroups|
      modifies this`specieGroups, this`specieMembers
      ensures SpeciesOk(names.specie, specieGroups, specieMembers)
      ensures SpeciesAppended(specieGroups, specieMembers, old(specieGroups), old(specieMembers), gid, es, r)
    {
      var i := 0;
      AppendedNothing(specieGroups, gid);
      while i < |es|
        invariant 0 <= i <= |es|
        invariant SpeciesOk(names.specie, specieGroups, specieMembers)
        invariant specieMembers == old(specieMembers) + es[..i]
        invariant specieGroups == Appended(old(specieGroups), gid, es[..i])
        invariant forall j :: 0 <= j < i ==> es[j] !in old(specieMembers) + es[..j]
      {
        if es[i] in specieMembers {
          return Err(AssertionError);
        }
        AddFresh(gid, es[i]);
        AppendedTwice(old(specieGroups), gid, es[..i], [es[i]]);
        assert es[..i] + [es[i]] == es[..i + 1];
        i := i + 1;
      }
      assert es[..i] == es;
      return Ok(());
    }

    /** One fresh element appended to a species group and to the members. */
    method AddFresh(gid: nat, x: Value)
      requires SpeciesOk(names.specie, specieGroups, specieMembers) && gid < |specieGroups| && x !in specieMembers
      modifies this`specieGroups, this`specieMembers
      ensures SpeciesOk(names.specie, specieGroups, specieMembers)
      ensures specieMembers == old(specieMembers) + [x]
      ensures specieGroups == Appended(old(specieGroups), gid, [x])
    {
      ghost var groups := specieGroups;
      specieGroups := specieGroups[gid := specieGroups[gid] + [x]];
      specieMembers := specieMembers + [x];
      forall g, i | 0 <= g < |specieGroups| && 0 <= i < |specieGroups[g]|
        ensures specieGroups[g][i] in specieMembers
        ensures specieGroups[g][i] == x ==> g == gid && i == |groups[gid]|
      {
        if g != gid || i < |groups[gid]| {
          assert specieGroups[g][i] == groups[g][i];
        }
      }
    }

    /**
     * The tuple branch of `define_group` for the element list `es`: with no `*`, the
     * list is resolved and its tuple appended; otherwise the first `*` is popped and
     * the branch recurses once per species group name. The tuples appended are those
     * of the expansions up to the first that fails to resolve.
     */
    method DefineLeaves(t: GroupType, gid: nat, es: seq<Value>, atomic: bool) returns (r: Result<(), Failure>)
      requires NamesOk(n, names) && TuplesOk(names, tupleGroups) && t != Specie && gid < |tupleGroups.At(t)|
      modifies this`tupleGroups, this`tupleMembers
      decreases StarCount(es), 1
      ensures TuplesOk(names, tupleGroups)
      ensures LeavesDefined(tupleGroups, tupleMembers, old(tupleGroups), old(tupleMembers), t, gid,
                            Expand(es, names.specie), names.specie, specieGroups, atomic, r)
    {
      var subs := names.specie;
      if Star in es {
        r := DefineSubs(t, gid, WithoutFirstStar(es), atomic);
        return;
      }
      var res := Resolve(es, subs, specieGroups, atomic);
      assert Expand(es, subs) == [es];
      assert Resolved([es], subs, specieGroups, atomic) == if res.Ok? then [res.value] else [];
      if res.Err? {
        TuplesAppendedNothing(tupleGroups, tupleMembers, t, gid);
        return Err(res.error);
      }
      AddTuple(t, gid, res.value);
      return Ok(());
    }

    /**
     * The loop over the species group names that replace a popped `*`: the list
     * `rest + [sub]` is defined for each name `sub` in order, stopping at the first
     * failure.
     */
    method DefineSubs(t: GroupType, gid: nat, rest: seq<Value>, atomic: bool) returns (r: Result<(), Failure>)
      requires NamesOk(n, names) && TuplesOk(names, tupleGroups) && t != Specie && gid < |tupleGroups.At(t)|
      modifies this`tupleGroups, this`tupleMembers
      decreases StarCount(rest) + 1, 0
      ensures TuplesOk(names, tupleGroups)
      ensures LeavesDefined(tupleGroups, tupleMembers, old(tupleGroups), old(tupleMembers), t, gid,
                            ExpandEach(rest, names.specie, names.specie), names.specie, specieGroups, atomic, r)
    {
      var subs := names.specie;
      ghost var sg := specieGroups;
      ghost var groups0, members0 := tupleGroups, tupleMembers;
      var i := 0;
      r := Ok(());
      assert subs[..0] == [];
      TuplesAppendedNothing(groups0, members0, t, gid);
      while i < |subs| && r.Ok?
        invariant 0 <= i <= |subs| && Star !in subs[..i]
        invariant TuplesOk(names, tupleGroups)
        invariant TuplesAppended(tupleGroups, tupleMembers, groups0, members0, t, gid,
                                 Resolved(ExpandEach(rest, subs[..i], subs), subs, sg, atomic))
        invariant r.Ok? <==> AllResolve(ExpandEach(rest, subs[..i], subs), subs, sg, atomic)
        invariant r.Err? ==> r.error == if atomic then KeyError else ValueError
        invariant r.Ok? ==> r == Ok(())
      {
        StarCountAppend(rest, [subs[i]]);
        assert StarCount([subs[i]]) == 0 by {
          assert subs[i] in subs;
          assert [subs[i]][..0] == [];
        }
        ghost var g1, m1 := tupleGroups, tupleMembers;
        ghost var done := Resolved(ExpandEach(rest, subs[..i], subs), subs, sg, atomic);
        r := DefineLeaves(t, gid, rest + [subs[i]], atomic);
        TuplesAppendedTwice(tupleGroups, tupleMembers, g1, m1, groups0, members0, t, gid,
                            done, Resolved(Expand(rest + [subs[i]], subs), subs, sg, atomic));
        ResolvedStep(rest, subs, i, sg, atomic);
        i := i + 1;
      }
      if r.Err? {
        ResolvedStops(rest, subs, i, subs, subs, sg, atomic);
      } else {
        assert subs[..i] == subs;
      }
    }

    /** One resolved tuple appended to the group `gid` of type `t` and to the type's members. */
    method AddTuple(t: GroupType, gid: nat, tuple: seq<int>)
      requires TuplesOk(names, tupleGroups) && t != Specie && gid < |tupleGroups.At(t)|
      requires forall x :: 0 <= x < |tuple| ==> 0 <= tuple[x] < |names.specie|
      modifies this`tupleGroups, this`tupleMembers
      ensures TuplesOk(names, tupleGroups)
      ensures TuplesAppended(tupleGroups, tupleMembers, old(tupleGroups), old(tupleMembers), t, gid, [tuple])
    {
      ghost var groups := tupleGroups.At(t);
      tupleGroups := tupleGroups.With(t, tupleGroups.At(t)[gid := tupleGroups.At(t)[gid] + [tuple]]);
      tupleMembers := tupleMembers.With(t, tupleMembers.At(t) + [tuple]);
      forall u, g | u != Specie && 0 <= g < |tupleGroups.At(u)|
        ensures Bounded(tupleGroups.At(u)[g], |names.specie|)
      {
        if u == t && g == gid {
          forall j, x | 0 <= j < |tupleGroups.At(u)[g]| && 0 <= x < |tupleGroups.At(u)[g][j]|
            ensures 0 <= tupleGroups.At(u)[g][j][x] < |names.specie|
          {
            if j < |groups[gid]| {
              assert tupleGroups.At(u)[g][j] == groups[gid][j];
            }
          }
        }
      }
    }

    /**
     * `define_group` after its name check and registration, for the group `gid`:
     * the species branch, or the tuple branch.
     */
    method DefineMembers(t: GroupType, gid: nat, elements: Value, atomic: bool) returns (r: Result<(), Failure>)
      requires RegistryOk() && NoiseOn() && gid < |names.At(t)|
      modifies this`specieGroups, this`specieMembers, this`tupleGroups, this`tupleMembers
      ensures RegistryOk()
      ensures t == Specie ==>
        SpeciesAppended(specieGroups, specieMembers, old(specieGroups), old(specieMembers), gid, Iter(elements), r)
        && tupleGroups == old(tupleGroups) && tupleMembers == old(tupleMembers)
      ensures t != Specie ==>
        TupleBranch(tupleGroups, tupleMembers, old(tupleGroups), old(tupleMembers), t, gid, elements,
                    names.specie, specieGroups, atomic, r)
        && specieGroups == old(specieGroups) && specieMembers == old(specieMembers)
    {
      if t == Specie {
        r := AddSpecies(gid, Iter(elements));
      } else if |names.specie| == 0 {
        r := Err(RuntimeError);
      } else if elements.Str? && '*' in elements.s {
        r := Err(AttributeError);
      } else {
        r := DefineLeaves(t, gid, Iter(elements), atomic);
      }
    }

    /**
     * `define_group(t, name, elements, atomic_str=atomic)`: the wildcard is refused
     * as a name; otherwise the name is registered (a new name gets an empty group)
     * and its group receives the elements or tuples. The registry invariant holds
     * whatever is raised.
     */
    method DefineGroup(t: GroupType, name: Value, elements: Value, atomic: bool) returns (r: Result<(), Failure>)
      requires RegistryOk() && NoiseOn()
      modifies this`n, this`names, this`specieGroups, this`specieMembers, this`tupleGroups, this`tupleMembers
      ensures RegistryOk()
      ensures name == Star ==> r == Err(ValueError) && RegistryUnchanged()
      ensures name != Star ==>
        names == old(names).With(t, Registered(old(names.At(t)), name)) && n == old(n).With(t, |names.At(t)|)
      ensures name != Star && t == Specie ==>
        SpeciesAppended(specieGroups, specieMembers, Grown(old(specieGroups), name !in old(names.specie)), old(specieMembers),
                        GroupId(old(names.specie), name), Iter(elements), r)
        && tupleGroups == old(tupleGroups) && tupleMembers == old(tupleMembers)
      ensures name != Star && t != Specie ==>
        TupleBranch(tupleGroups, tupleMembers, old(tupleGroups).With(t, Grown(old(tupleGroups.At(t)), name !in old(names.At(t)))),
                    old(tupleMembers), t, GroupId(old(names.At(t)), name), elements, names.specie, specieGroups, atomic, r)
        && specieGroups == old(specieGroups) && specieMembers == old(specieMembers)
    {
      if name == Star {
        return Err(ValueError);
      }
      var gid := RegisterName(t, name);
      r := DefineMembers(t, gid, elements, atomic);
    }

    /**
     * `define_group` as the sweeping loops use it: defined names and elements stay
     * defined, only the type's own names change, and success registers the name and,
     * for species, every element.
     */
    method DefineKept(t: GroupType, name: Value, elements: Value) returns (r: Result<(), Failure>)
      requires RegistryOk() && NoiseOn()
      modifies this`n, this`names, this`specieGroups, this`specieMembers, this`tupleGroups, this`tupleMembers
      ensures RegistryOk()
      ensures forall u :: u != t ==> names.At(u) == old(names.At(u))
      ensures forall x :: x in old(names.At(t)) ==> x in names.At(t)
      ensures forall x :: x in old(specieMembers) ==> x in specieMembers
      ensures r.Ok? ==> name in names.At(t)
      ensures name == Star ==> r == Err(ValueError)
      ensures t == Specie && r.Ok? ==> forall e :: e in Iter(elements) ==> e in specieMembers
    {
      r := DefineGroup(t, name, elements, false);
      if t == Specie && r.Ok? {
        assert Iter(elements)[..|Iter(elements)|] == Iter(elements);
      }
    }

    /**
     * `list_sweeping(t, arg)`: species must come first and only once; species given
     * as a list define one group per entry (a list entry names its own group, any
     * other entry is a group of one), and any other argument fails on the misspelt
     * name in the dictionary test (NameError). The other types define a group per
     * list entry, named by position, or per dictionary key; a plain string defines
     * nothing. Defined names stay defined and the other types' names are untouched.
     */
    method ListSweeping(t: GroupType, arg: Arg) returns (r: Result<(), Failure>)
      requires RegistryOk() && NoiseOn()
      modifies this`n, this`names, this`specieGroups, this`specieMembers, this`tupleGroups, this`tupleMembers
      ensures RegistryOk()
      ensures (t == Specie) == (old(names.specie) != []) ==> r == Err(RuntimeError) && RegistryUnchanged()
      ensures t == Specie && old(names.specie) == [] && !(arg.Plain? && arg.v.List?) ==>
        r == Err(NameError) && RegistryUnchanged()
      ensures t != Specie && old(names.specie) != [] && arg.Plain? && arg.v.Str? ==> r == Ok(()) && RegistryUnchanged()
      ensures forall u :: u != t ==> names.At(u) == old(names.At(u))
      ensures forall x :: x in old(names.At(t)) ==> x in names.At(t)
      ensures r.Ok? ==> forall x :: x in SweptNames(t, arg) ==> x in names.At(t)
      ensures t == Specie && r.Ok? && arg.Plain? && arg.v.List? ==>
        forall k, e :: 0 <= k < |arg.v.items| && e in SpecieEntry(arg.v.items[k]) ==> e in specieMembers
    {
      if (t == Specie) == (names.specie != []) {
        return Err(RuntimeError);
      }
      if t == Specie {
        if !(arg.Plain? && arg.v.List?) {
          return Err(NameError);
        }
        r := SweepSpecies(arg.v.items);
      } else {
        match arg
        case Plain(v) =>
          if v.Str? {
            return Ok(());
          }
          r := SweepList(t, v.items);
        case Dict(entries) =>
          r := SweepDict(t, entries);
      }
    }

    /** The species loop of `list_sweeping`. */
    method SweepSpecies(items: seq<Value>) returns (r: Result<(), Failure>)
      requires RegistryOk() && NoiseOn()
      modifies this`n, this`names, this`specieGroups, this`specieMembers, this`tupleGroups, this`tupleMembers
      ensures RegistryOk()
      ensures forall u :: u != Specie ==> names.At(u) == old(names.At(u))
      ensures forall x :: x in old(names.specie) ==> x in names.specie
      ensures r.Ok? ==> forall k :: 0 <= k < |items| ==> items[k] in names.specie
      ensures r.Ok? ==> forall k, e :: 0 <= k < |items| && e in SpecieEntry(items[k]) ==> e in specieMembers
    {
      r := Ok(());
      var i := 0;
      while i < |items| && r.Ok?
        invariant 0 <= i <= |items|
        invariant RegistryOk() && NoiseOn()
        invariant forall u :: u != Specie ==> names.At(u) == old(names.At(u))
        invariant forall x :: x in old(names.specie) ==> x in names.specie
        invariant forall x :: x in old(specieMembers) ==> x in specieMembers
        invariant r.Ok? ==> forall k :: 0 <= k < i ==> items[k] in names.specie
        invariant r.Ok? ==> forall k, e :: 0 <= k < i && e in SpecieEntry(items[k]) ==> e in specieMembers
      {
        var ele := items[i];
        var es := if ele.List? then ele else List([ele]);
        assert Iter(es) == SpecieEntry(ele);
        r := DefineKept(Specie, ele, es);
        i := i + 1;
      }
    }

    /** The list loop of `list_sweeping` for a type other than species: group `idg` is named `f"{t}_{idg}"`. */
    method SweepList(t: GroupType, items: seq<Value>) returns (r: Result<(), Failure>)
      requires RegistryOk() && NoiseOn() && t != Specie
      modifies this`n, this`names, this`specieGroups, this`specieMembers, this`tupleGroups, this`tupleMembers
      ensures RegistryOk()
      ensures forall u :: u != t ==> names.At(u) == old(names.At(u))
      ensures forall x :: x in old(names.At(t)) ==> x in names.At(t)
      ensures r.Ok? ==> forall idg :: 0 <= idg < |items| ==> SweepName(t, idg) in names.At(t)
    {
      r := Ok(());
      var idg := 0;
      while idg < |items| && r.Ok?
        invariant 0 <= idg <= |items|
        invariant RegistryOk() && NoiseOn()
        invariant forall u :: u != t ==> names.At(u) == old(names.At(u))
        invariant forall x :: x in old(names.At(t)) ==> x in names.At(t)
        invariant r.Ok? ==> forall k :: 0 <= k < idg ==> SweepName(t, k) in names.At(t)
      {
        var name := SweepName(t, idg);
        assert name != Star by {
          assert |name.s| > 1;
        }
        r := DefineKept(t, name, items[idg]);
        idg := idg + 1;
      }
    }

    /**
     * The dictionary loop of `list_sweeping` for a type other than species: a value
     * whose first entry is a list defines each entry under the key's name, any other
     * value is defined whole, and an empty value cannot be indexed (IndexError).
     */
    method SweepDict(t: GroupType, entries: seq<(string, Value)>) returns (r: Result<(), Failure>)
      requires RegistryOk() && NoiseOn() && t != Specie
      modifies this`n, this`names, this`specieGroups, this`specieMembers, this`tupleGroups, this`tupleMembers
      ensures RegistryOk()
      ensures forall u :: u != t ==> names.At(u) == old(names.At(u))
      ensures forall x :: x in old(names.At(t)) ==> x in names.At(t)
      ensures r.Ok? ==> forall k :: 0 <= k < |entries| ==> Str(entries[k].0) in names.At(t)
      ensures (exists k :: 0 <= k < |entries| && Iter(entries[k].1) == []) ==> r.Err?
    {
      r := Ok(());
      var k := 0;
      while k < |entries| && r.Ok?
        invariant 0 <= k <= |entries|
        invariant RegistryOk() && NoiseOn()
        invariant forall u :: u != t ==> names.At(u) == old(names.At(u))
        invariant forall x :: x in old(names.At(t)) ==> x in names.At(t)
        invariant r.Ok? ==> forall j :: 0 <= j < k ==> Str(entries[j].0) in names.At(t) && Iter(entries[j].1) != []
      {
        var name := Str(entries[k].0);
        var v := entries[k].1;
        var es := Iter(v);
        if es == [] {
          r := Err(IndexError);
        } else if v.List? && es[0].List? {
          r := SweepEach(t, name, es);
        } else {
          r := DefineKept(t, name, v);
        }
        k := k + 1;
      }
    }

    /** `for ele in value: define_group(t, name, ele)`: every entry under the one name. */
    method SweepEach(t: GroupType, name: Value, es: seq<Value>) returns (r: Result<(), Failure>)
      requires RegistryOk() && NoiseOn() && t != Specie
      modifies this`n, this`names, this`specieGroups, this`specieMembers, this`tupleGroups, this`tupleMembers
      ensures RegistryOk()
      ensures forall u :: u != t ==> names.At(u) == old(names.At(u))
      ensures forall x :: x in old(names.At(t)) ==> x in names.At(t)
      ensures r.Ok? && es != [] ==> name in names.At(t)
      ensures name == Star && es != [] ==> r == Err(ValueError)
    {
      r := Ok(());
      var i := 0;
      while i < |es| && r.Ok?
        invariant 0 <= i <= |es|
        invariant RegistryOk() && NoiseOn()
        invariant forall u :: u != t ==> names.At(u) == old(names.At(u))
        invariant forall x :: x in old(names.At(t)) ==> x in names.At(t)
        invariant r.Ok? && i > 0 ==> name in names.At(t)
        invariant name == Star && i > 0 ==> r == Err(ValueError)
        invariant i == 0 ==> r.Ok?
      {
        r := DefineKept(t, name, es[i]);
        i := i + 1;
      }
    }

    /** The registry as one value. */
    function Reg(): Registry
      reads this`n, this`names, this`specieGroups, this`tupleGroups
    {
      Registry(n, names, specieGroups, tupleGroups)
    }

    /** The attributes `print_group` and `generate_dict` write, as one value. */
    function Out(): Outputs
      reads this`nspecie, this`specieMask, this`ntriplet, this`mask, this`hypsSig, this`hypsLs, this`hypsOpt,
            this`cutoffList, this`hypsMask
    {
      Outputs(nspecie, specieMask, ntriplet, mask, hypsSig, hypsLs, hypsOpt, cutoffList, hypsMask)
    }

    /**
     * `print_group(t)`, with `element_to_Z` as `z`. On an exception the attributes
     * of a pair or triplet type are left as they were.
     */
    method PrintGroup(t: GroupType, z: Value -> int) returns (r: Result<(), Failure>)
      requires RegistryOk() && forall v :: 0 <= z(v) < 118
      modifies this`nspecie, this`specieMask, this`ntriplet, this`mask, this`hypsSig, this`hypsLs, this`hypsOpt,
               this`cutoffList
      ensures (Out(), r) == Printed(old(Out()), Reg(), t, ParamTables(), z)
    {
      if t == Specie {
        nspecie := Some(n.specie);
        var m := SpecieMask(specieGroups, z);
        specieMask := Some(m);
        // the closing message names the loop variable, unbound when no group exists
        r := if n.specie == 0 then Err(NameError) else Ok(());
      } else {
        assert RegOk(Reg());
        r := PrintTuples(t);
      }
    }

    /** The `bond`, `triplet`, `cut3b` and `mb` branches of `print_group`. */
    method PrintTuples(t: GroupType) returns (r: Result<(), Failure>)
      requires RegOk(Reg()) && t != Specie
      modifies this`ntriplet, this`mask, this`hypsSig, this`hypsLs, this`hypsOpt, this`cutoffList
      ensures (Out(), r) == PrintedTuples(old(Out()), Reg(), t, ParamTables())
    {
      if t == Triplet {
        ntriplet := Some(n.triplet);
      }
      var p := BuildPart(Reg(), t, ParamTables());
      if p.Err? {
        r := Err(p.error);
      } else {
        if p.value.Some? {
          StorePart(t, p.value.value);
        }
        r := Ok(());
      }
    }

    /** The attributes a built part is written to. */
    method StorePart(t: GroupType, p: Part)
      modifies this`mask, this`hypsSig, this`hypsLs, this`hypsOpt, this`cutoffList
      ensures Out() == WithPart(old(Out()), t, p)
    {
      mask := mask[t := p.mask];
      hypsSig := hypsSig[t := p.block.sig];
      hypsLs := hypsLs[t := p.block.ls];
      hypsOpt := hypsOpt[t := p.block.opt];
      if t != Triplet {
        cutoffList := cutoffList[t := p.cutoffs];
      }
    }

    /** The five `print_group` calls of `generate_dict`, stopping at the first exception. */
    method PrintAllGroups(z: Value -> int) returns (r: Result<(), Failure>)
      requires RegistryOk() && forall v :: 0 <= z(v) < 118
      modifies this`nspecie, this`specieMask, this`ntriplet, this`mask, this`hypsSig, this`hypsLs, this`hypsOpt,
               this`cutoffList
      ensures RegOk(Reg()) && (Out(), r) == PrintAll(old(Out()), Reg(), ParamTables(), z)
    {
      r := PrintGroup(Specie, z);
      if r.Err? {
        return;
      }
      r := PrintGroup(Bond, z);
      if r.Err? {
        return;
      }
      r := PrintGroup(Triplet, z);
      if r.Err? {
        return;
      }
      r := PrintGroup(Cut3b, z);
      if r.Err? {
        return;
      }
      r := PrintGroup(Mb, z);
    }

    /**
     * `generate_dict`, with `element_to_Z` as `z`: the attributes afterwards and the
     * dictionary returned, as `Generated` says.
     */
    method GenerateDict(z: Value -> int) returns (r: Result<Option<HypsMask>, Failure>)
      requires RegistryOk() && NoiseOn() && forall v :: 0 <= z(v) < 118
      modifies this`nspecie, this`specieMask, this`ntriplet, this`mask, this`hypsSig, this`hypsLs, this`hypsOpt,
               this`cutoffList, this`hypsMask
      ensures (Out(), r) == Generated(old(Out()), Reg(), ParamTables(), noise, z)
    {
      if n.specie < 2 {
        hypsMask := Some(None);
        r := Ok(None);
      } else {
        r := GenerateFrom(z);
      }
    }

    /** `generate_dict` with at least two species groups. */
    method GenerateFrom(z: Value -> int) returns (r: Result<Option<HypsMask>, Failure>)
      requires RegistryOk() && NoiseOn() && (forall v :: 0 <= z(v) < 118) && n.specie >= 2
      modifies this`nspecie, this`specieMask, this`ntriplet, this`mask, this`hypsSig, this`hypsLs, this`hypsOpt,
               this`cutoffList, this`hypsMask
      ensures RegOk(Reg()) && (Out(), r) == Generated(old(Out()), Reg(), ParamTables(), noise, z)
    {
      ghost var o := Out();
      var printed := PrintAllGroups(z);
      GeneratedAfter(o, Reg(), ParamTables(), noise, z);
      if printed.Err? {
        return Err(printed.error);
      }
      r := Assemble();
    }

    /** The dictionary `generate_dict` reads back from the attributes, stored when built. */
    method Assemble() returns (r: Result<Option<HypsMask>, Failure>)
      requires specieMask.Some? && NoiseOn()
      modifies this`hypsMask
      ensures (Out(), r) == Assembled(old(Out()), n, ParamTables(), noise)
    {
      var out := Out();
      var d := BuildDict(n.specie, specieMask.value, StoredPart(out, n.bond, Bond), StoredPart(out, n.triplet, Triplet),
                         StoredPart(out, n.mb, Mb), StoredPart(out, n.cut3b, Cut3b), NoiseValues(noise), opt["noise"]);
      if d.Err? {
        return Err(d.error);
      }
      hypsMask := Some(Some(d.value));
      r := Ok(Some(d.value));
    }

    /**
     * The rest of `__init__` when a species argument is given: `list_sweeping` for
     * each type given, in order, then `list_parameters` when parameters are given,
     * then `generate_dict`, whose dictionary is kept; the first exception stops it.
     */
    method Setup(specie: Arg, bond: Option<Arg>, triplet: Option<Arg>, cut3b: Option<Arg>, mb: Option<Arg>,
                 para: Option<seq<(string, Param)>>, constraint: map<string, Flags>, z: Value -> int)
      returns (r: Result<(), Failure>)
      requires RegistryOk() && NoiseOn() && forall v :: 0 <= z(v) < 118
      modifies this
      ensures RegistryOk() && RegOk(Reg()) && NoiseOn()
      ensures r.Ok? ==> AllSwept(names, specie, bond, triplet, cut3b, mb) && DictKept(hypsMask, Reg(), ParamTables(), noise, z)
    {
      r := SweepAll(specie, bond, triplet, cut3b, mb);
      if r.Err? {
        return;
      }
      r := ParametersThenDict(para, constraint, z);
    }

    /** `list_parameters` when parameters are given, then `generate_dict`. */
    method ParametersThenDict(para: Option<seq<(string, Param)>>, constraint: map<string, Flags>, z: Value -> int)
      returns (r: Result<(), Failure>)
      requires RegistryOk() && NoiseOn() && forall v :: 0 <= z(v) < 118
      modifies this`sigma, this`ls, this`cutoff, this`opt, this`noise, this`nspecie, this`specieMask, this`ntriplet,
               this`mask, this`hypsSig, this`hypsLs, this`hypsOpt, this`cutoffList, this`hypsMask
      ensures RegOk(Reg()) && NoiseOn()
      ensures r.Ok? ==> DictKept(hypsMask, Reg(), ParamTables(), noise, z)
    {
      if para.Some? {
        r := ListParameters(para.value, constraint);
        if r.Err? {
          return;
        }
      }
      ghost var o := Out();
      var h := GenerateDict(z);
      GeneratedOk(o, Reg(), ParamTables(), noise, z);
      r := if h.Err? then Err(h.error) else Ok(());
    }

    /** The `list_sweeping` calls of `__init__`, in order, stopping at the first exception. */
    method SweepAll(specie: Arg, bond: Option<Arg>, triplet: Option<Arg>, cut3b: Option<Arg>, mb: Option<Arg>)
      returns (r: Result<(), Failure>)
      requires RegistryOk() && NoiseOn()
      modifies this`n, this`names, this`specieGroups, this`specieMembers, this`tupleGroups, this`tupleMembers
      ensures RegistryOk()
      ensures r.Ok? ==> AllSwept(names, specie, bond, triplet, cut3b, mb)
    {
      r := SweepGiven(Specie, Some(specie));
      if r.Err? {
        return;
      }
      ghost var n1 := names;
      r := SweepGiven(Bond, bond);
      if r.Err? {
        return;
      }
      ghost var n2 := names;
      r := SweepGiven(Triplet, triplet);
      if r.Err? {
        return;
      }
      ghost var n3 := names;
      r := SweepGiven(Cut3b, cut3b);
      if r.Err? {
        return;
      }
      ghost var n4 := names;
      r := SweepGiven(Mb, mb);
      if r.Ok? {
        AllSweptChain(n1, n2, n3, n4, names, specie, bond, triplet, cut3b, mb);
      }
    }

    /** `list_sweeping(t, arg)` when the argument was given; nothing otherwise. */
    method SweepGiven(t: GroupType, arg: Option<Arg>) returns (r: Result<(), Failure>)
      requires RegistryOk() && NoiseOn()
      modifies this`n, this`names, this`specieGroups, this`specieMembers, this`tupleGroups, this`tupleMembers
      ensures RegistryOk()
      ensures r.Ok? ==> SweptStep(old(names), names, t, arg)
      ensures arg.None? ==> r == Ok(()) && RegistryUnchanged()
    {
      if arg.None? {
        return Ok(());
      }
      r := ListSweeping(t, arg.value);
    }
  }
}
