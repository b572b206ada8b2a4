/**
 * The values the hyperparameter-mask builder works on: group types, the Python
 * strings and lists its callers pass as names and element lists, the exceptions it
 * raises, and the `hyps_mask` dictionary it produces and validates.
 */
module MaskTypes {
  import opened Wrappers

  /** The keys of the per-type registries. */
  datatype GroupType = Specie | Bond | Triplet | Cut3b | Mb

  /** The key string of a group type, as used to build parameter names. */
  function TypeName(t: GroupType): string {
    match t
    case Specie => "specie"
    case Bond => "bond"
    case Triplet => "triplet"
    case Cut3b => "cut3b"
    case Mb => "mb"
  }

  /** A Python string, or a Python list of such values: group names and element lists. */
  datatype Value = Str(s: string) | List(items: seq<Value>)

  /** The wildcard that stands for every species group. */
  const Star: Value := Str("*")

  /** What `for x in v` visits: the characters of a string, the items of a list. */
  function Iter(v: Value): (r: seq<Value>)
    ensures v.List? ==> r == v.items
    ensures v.Str? ==> |r| == |v.s| && forall i :: 0 <= i < |r| ==> r[i] == Str([v.s[i]])
  {
    match v
    case List(items) => items
    case Str(s) => seq(|s|, i requires 0 <= i < |s| => Str([s[i]]))
  }

  /** The exceptions the builder and its validators raise. */
  datatype Failure =
    | ValueError
    | RuntimeError
    | AssertionError
    | KeyError
    | IndexError
    | TypeError
    | NameError
    | AttributeError

  /** `group_type + name`: only a string name can be appended to the type's key. */
  function FullName(t: GroupType, name: Value): (r: Option<string>)
    ensures r.Some? <==> name.Str?
    ensures r.Some? ==> r.value == TypeName(t) + name.s
  {
    if name.Str? then Some(TypeName(t) + name.s) else None
  }

  /** The optimisation flags `set_parameters` takes: one boolean for all, or a list. */
  datatype Flags = Both(b: bool) | Each(flags: seq<bool>)

  /** The flag list `set_parameters` indexes: a single boolean is repeated three times. */
  function FlagList(f: Flags): (r: seq<bool>)
    ensures f.Both? ==> r == [f.b, f.b, f.b]
    ensures f.Each? ==> r == f.flags
  {
    match f
    case Both(b) => [b, b, b]
    case Each(fs) => fs
  }

  /**
   * The `hyps_mask` dictionary, one field per key the builder writes and the
   * validators read; `None` is a missing key.
   */
  datatype HypsMask = HypsMask(
    nspecie: Option<int>,
    specieMask: Option<seq<int>>,
    nbond: Option<int>,
    bondMask: Option<seq<int>>,
    ntriplet: Option<int>,
    tripletMask: Option<seq<int>>,
    nmb: Option<int>,
    mbMask: Option<seq<int>>,
    original: Option<seq<real>>,
    mapping: Option<seq<int>>,
    hyps: Option<seq<real>>,
    trainNoise: Option<bool>,
    cutoff2b: Option<seq<real>>,
    cutoff3b: Option<seq<real>>,
    ncut3b: Option<int>,
    cut3bMask: Option<seq<int>>,
    cutoffMb: Option<seq<real>>)

  /** The decimal digits of `n`, as an f-string prints it. */
  function Decimal(n: nat): string
    decreases n
  {
    var d := ["0", "1", "2", "3", "4", "5", "6", "7", "8", "9"][n % 10];
    if n < 10 then d else Decimal(n / 10) + d
  }
}
