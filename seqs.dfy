/**
 * Sequence helpers shared by the controllers: Python's negative indexing, the
 * stride split `s[::k]` and its complement, the indices of one value in a list,
 * and enumerations of a finite set as a list without repeats.
 */
module Seqs {

  predicate Distinct<T(==)>(s: seq<T>) {
    forall i, j :: 0 <= i < j < |s| ==> s[i] != s[j]
  }

  function Elems<T>(s: seq<T>): set<T> {
    set x | x in s
  }

  /** Python's `xs[a]` for a list of length `n`: a negative index counts from the end. */
  function PyIndex(a: int, n: nat): (r: int)
    requires -(n as int) <= a < n
    ensures 0 <= r < n
    ensures a >= 0 ==> r == a
    ensures a < 0 ==> r == n + a
  {
    if a < 0 then n + a else a
  }

  /** Every element of `atoms` is a valid Python index into a list of length `n`. */
  predicate ValidIndices(atoms: seq<int>, n: nat) {
    forall i :: 0 <= i < |atoms| ==> -(n as int) <= atoms[i] < n
  }

  /** `[xs[a] for a in atoms]` */
  function Gather<T>(xs: seq<T>, atoms: seq<int>): (r: seq<T>)
    requires ValidIndices(atoms, |xs|)
    ensures |r| == |atoms|
    ensures forall i :: 0 <= i < |atoms| ==> r[i] == xs[PyIndex(atoms[i], |xs|)]
  {
    if atoms == [] then [] else [xs[PyIndex(atoms[0], |xs|)]] + Gather(xs, atoms[1..])
  }

  lemma {:induction false} GatherAppend<T>(xs: seq<T>, a: seq<int>, b: seq<int>)
    requires ValidIndices(a, |xs|) && ValidIndices(b, |xs|)
    ensures ValidIndices(a + b, |xs|)
    ensures Gather(xs, a + b) == Gather(xs, a) + Gather(xs, b)
  {
    assert ValidIndices(a + b, |xs|) by {
      forall i | 0 <= i < |a + b| ensures -(|xs| as int) <= (a + b)[i] < |xs| {
        if i >= |a| { assert (a + b)[i] == b[i - |a|]; }
      }
    }
  }

  lemma AppendAssoc<T>(a: seq<T>, b: seq<T>, c: seq<T>)
    ensures (a + b) + c == a + (b + c)
  {
  }

  lemma DistinctConcat<T>(a: seq<T>, b: seq<T>)
    requires Distinct(a) && Distinct(b)
    requires forall i, j :: 0 <= i < |a| && 0 <= j < |b| ==> a[i] != b[j]
    ensures Distinct(a + b)
  {
    forall i, j | 0 <= i < j < |a + b| ensures (a + b)[i] != (a + b)[j] {
      if j < |a| {
      } else if i >= |a| {
        assert (a + b)[i] == b[i - |a|] && (a + b)[j] == b[j - |a|];
      } else {
        assert (a + b)[j] == b[j - |a|];
      }
    }
  }

  /**
   * `chosen` may come out of `random.sample(pool, m)`, or be the first `m` entries
   * of `pool` after `np.random.shuffle`: `m` distinct members of `pool`, in any order.
   */
  predicate IsSample<T(==)>(chosen: seq<T>, pool: seq<T>, m: nat) {
    |chosen| == m && Distinct(chosen) && forall i :: 0 <= i < |chosen| ==> chosen[i] in pool
  }

  lemma SampleExists<T>(pool: seq<T>, m: nat)
    requires Distinct(pool) && m <= |pool|
    ensures exists chosen :: IsSample(chosen, pool, m)
  {
    assert IsSample(pool[..m], pool, m);
  }

  function Sum(xs: seq<nat>): nat
  {
    if xs == [] then 0 else Sum(xs[..|xs| - 1]) + xs[|xs| - 1]
  }

  lemma SumAppend(xs: seq<nat>, x: nat)
    ensures Sum(xs + [x]) == Sum(xs) + x
  {
    assert (xs + [x])[..|xs|] == xs;
  }

  /** The number of listed atoms whose entry in `xs` is `x`. */
  function CountIn<T(==)>(xs: seq<T>, atoms: seq<int>, x: T): (r: nat)
    requires ValidIndices(atoms, |xs|)
    ensures r <= |atoms|
  {
    if atoms == [] then 0
    else (if xs[PyIndex(atoms[0], |xs|)] == x then 1 else 0) + CountIn(xs, atoms[1..], x)
  }

  lemma ValidIndicesAppend(a: seq<int>, b: seq<int>, n: nat)
    requires ValidIndices(a, n) && ValidIndices(b, n)
    ensures ValidIndices(a + b, n)
  {
    forall i | 0 <= i < |a + b| ensures -(n as int) <= (a + b)[i] < n {
      if i >= |a| { assert (a + b)[i] == b[i - |a|]; }
    }
  }

  lemma {:induction false} CountInAppend<T>(xs: seq<T>, a: seq<int>, b: seq<int>, x: T)
    requires ValidIndices(a, |xs|) && ValidIndices(b, |xs|)
    ensures ValidIndices(a + b, |xs|)
    ensures CountIn(xs, a + b, x) == CountIn(xs, a, x) + CountIn(xs, b, x)
    decreases |a|
  {
    ValidIndicesAppend(a, b, |xs|);
    if a != [] {
      assert (a + b)[1..] == a[1..] + b;
      assert (a + b)[0] == a[0];
      CountInAppend(xs, a[1..], b, x);
    } else {
      assert a + b == b;
    }
  }

  lemma {:induction false} CountInUniform<T>(xs: seq<T>, chosen: seq<int>, x: T, y: T)
    requires forall i :: 0 <= i < |chosen| ==> 0 <= chosen[i] < |xs| && xs[chosen[i]] == x
    ensures ValidIndices(chosen, |xs|)
    ensures CountIn(xs, chosen, y) == if y == x then |chosen| else 0
    decreases |chosen|
  {
    if chosen != [] {
      CountInUniform(xs, chosen[1..], x, y);
    }
  }

  /** Counting listed atoms is counting in the gathered list. */
  lemma {:induction false} CountInGather<T>(xs: seq<T>, atoms: seq<int>, x: T)
    requires ValidIndices(atoms, |xs|)
    ensures Occurrences(Gather(xs, atoms), x) == CountIn(xs, atoms, x)
    decreases |atoms|
  {
    if atoms != [] {
      CountInGather(xs, atoms[1..], x);
      assert Gather(xs, atoms) == [xs[PyIndex(atoms[0], |xs|)]] + Gather(xs, atoms[1..]);
    }
  }

  /** `xs.count(x)` */
  function Occurrences<T(==)>(xs: seq<T>, x: T): nat {
    multiset(xs)[x]
  }

  function Flatten<T>(ss: seq<seq<T>>): (r: seq<T>)
  {
    if ss == [] then [] else ss[0] + Flatten(ss[1..])
  }

  function TotalLength<T>(ss: seq<seq<T>>): nat
  {
    if ss == [] then 0 else |ss[0]| + TotalLength(ss[1..])
  }

  lemma {:induction false} FlattenLength<T>(ss: seq<seq<T>>)
    ensures |Flatten(ss)| == TotalLength(ss)
  {
    if ss != [] {
      FlattenLength(ss[1..]);
    }
  }

  lemma {:induction false} TotalLengthAppend<T>(ss: seq<seq<T>>, s: seq<T>)
    ensures TotalLength(ss + [s]) == TotalLength(ss) + |s|
  {
    if ss == [] {
      assert ss + [s] == [s];
    } else {
      assert (ss + [s])[1..] == ss[1..] + [s];
      TotalLengthAppend(ss[1..], s);
    }
  }

  // ---------------------------------------------------------------------------
  // Indices of one value: `frame.indices_of_specie(s)`

  /** The ascending list of positions `i` with `xs[i] == x`. */
  function IndicesOf<T(==)>(xs: seq<T>, x: T): seq<int>
    decreases |xs|
  {
    if xs == [] then []
    else IndicesOf(xs[..|xs| - 1], x) + (if xs[|xs| - 1] == x then [|xs| - 1] else [])
  }

  lemma {:induction false} IndicesOfSpec<T>(xs: seq<T>, x: T)
    ensures Distinct(IndicesOf(xs, x))
    ensures |IndicesOf(xs, x)| == Occurrences(xs, x)
    ensures forall i :: i in IndicesOf(xs, x) <==> 0 <= i < |xs| && xs[i] == x
    decreases |xs|
  {
    if xs != [] {
      var p := xs[..|xs| - 1];
      IndicesOfSpec(p, x);
      assert xs == p + [xs[|xs| - 1]];
      assert multiset(xs) == multiset(p) + multiset{xs[|xs| - 1]};
      forall i ensures i in IndicesOf(xs, x) <==> 0 <= i < |xs| && xs[i] == x {
        if 0 <= i < |p| {
          assert xs[i] == p[i];
        }
      }
    }
  }

  // ---------------------------------------------------------------------------
  // The stride split: `s[::k]` and the positions it leaves out

  /**
   * The elements of `s` whose position `i` has `(i % k == 0) == onStride`, in their
   * original order. `Strided(s, k, true)` is Python's `s[::k]`.
   */
  function Strided<T>(s: seq<T>, k: nat, onStride: bool): seq<T>
    requires k > 0
    decreases |s|
  {
    if s == [] then []
    else Strided(s[..|s| - 1], k, onStride)
         + (if ((|s| - 1) % k == 0) == onStride then [s[|s| - 1]] else [])
  }

  /** The two parts of the split together hold exactly the elements of `s`. */
  lemma {:induction false} StridedPartition<T>(s: seq<T>, k: nat)
    requires k > 0
    ensures |Strided(s, k, true)| + |Strided(s, k, false)| == |s|
    ensures multiset(Strided(s, k, true)) + multiset(Strided(s, k, false)) == multiset(s)
    decreases |s|
  {
    if s != [] {
      var p, x := s[..|s| - 1], s[|s| - 1];
      StridedPartition(p, k);
      assert s == p + [x];
      assert multiset(s) == multiset(p) + multiset{x};
      var on, off := Strided(p, k, true), Strided(p, k, false);
      if (|s| - 1) % k == 0 {
        assert Strided(s, k, true) == on + [x] && Strided(s, k, false) == off;
        assert multiset(on + [x]) == multiset(on) + multiset{x};
      } else {
        assert Strided(s, k, true) == on && Strided(s, k, false) == off + [x];
        assert multiset(off + [x]) == multiset(off) + multiset{x};
      }
    }
  }

  /** A shorter prefix of `s` splits into prefixes of the parts of `s`. */
  lemma {:induction false} StridedPrefix<T>(s: seq<T>, k: nat, onStride: bool, j: nat)
    requires k > 0 && j <= |s|
    ensures |Strided(s[..j], k, onStride)| <= |Strided(s, k, onStride)|
    ensures Strided(s[..j], k, onStride) == Strided(s, k, onStride)[..|Strided(s[..j], k, onStride)|]
    decreases |s|
  {
    if j < |s| {
      var p := s[..|s| - 1];
      assert p[..j] == s[..j];
      StridedPrefix(p, k, onStride, j);
    } else {
      assert s[..j] == s;
    }
  }

  lemma DivUnique(x: int, k: int, q: int, r: int)
    requires k > 0 && 0 <= r < k && x == q * k + r
    ensures x / k == q && x % k == r
  {
    var d := x / k - q;
    assert d * k == r - x % k by {
      assert x == (x / k) * k + x % k;
      assert d * k == (x / k) * k - q * k;
    }
    if d >= 1 {
      MulAtLeast(d, k);
      assert false;
    } else if d <= -1 {
      MulAtLeast(-d, k);
      assert false;
    }
  }

  lemma {:induction false} MulAtLeast(d: int, k: int)
    requires d >= 1 && k > 0
    ensures d * k >= k
    decreases d
  {
    if d > 1 {
      MulAtLeast(d - 1, k);
      assert d * k == (d - 1) * k + k;
    }
  }

  /** `ceil(i / k)` against `i / k`: they agree exactly when `k` divides `i`. */
  lemma CeilDiv(i: nat, k: nat)
    requires k > 0
    ensures i % k == 0 ==> (i + k - 1) / k == i / k
    ensures i % k != 0 ==> (i + k - 1) / k == i / k + 1
    ensures (i + k) / k == (i + k - 1) / k + (if i % k == 0 then 1 else 0)
  {
    var q, r := i / k, i % k;
    assert i == q * k + r;
    if r == 0 {
      DivUnique(i + k - 1, k, q, k - 1);
      DivUnique(i + k, k, q + 1, 0);
    } else {
      DivUnique(i + k - 1, k, q + 1, r - 1);
      DivUnique(i + k, k, q + 1, r);
    }
  }

  /** `len(s[::k])` is the number of multiples of `k` below `len(s)`, i.e. `ceil(len(s) / k)`. */
  lemma {:induction false} StridedLength<T>(s: seq<T>, k: nat)
    requires k > 0
    ensures |Strided(s, k, true)| == (|s| + k - 1) / k
    decreases |s|
  {
    if s == [] {
      DivUnique(k - 1, k, 0, k - 1);
    } else {
      var n := |s| - 1;
      StridedLength(s[..n], k);
      assert s[..|s| - 1] == s[..n];
      CeilDiv(n, k);
    }
  }

  /** Element `i` of `s` follows, in its part, the elements of that part taken from `s[..i]`. */
  lemma StridedAtPrefix<T>(s: seq<T>, k: nat, i: nat)
    requires k > 0 && i < |s|
    ensures |Strided(s[..i], k, i % k == 0)| < |Strided(s, k, i % k == 0)|
    ensures Strided(s, k, i % k == 0)[|Strided(s[..i], k, i % k == 0)|] == s[i]
  {
    var pre := s[..i + 1];
    assert pre[..|pre| - 1] == s[..i];
    var onStride := i % k == 0;
    var before := Strided(s[..i], k, onStride);
    assert Strided(pre, k, onStride) == before + [s[i]];
    StridedPrefix(s, k, onStride, i + 1);
  }

  /**
   * Position `i` of `s` goes to the strided part, at position `i / k`, exactly when
   * `i % k == 0`; otherwise it goes to the other part at position `i - i / k - 1`.
   */
  lemma StridedAt<T>(s: seq<T>, k: nat, i: nat)
    requires k > 0 && i < |s|
    ensures i % k == 0 ==> i / k < |Strided(s, k, true)| && Strided(s, k, true)[i / k] == s[i]
    ensures i % k != 0 ==> 0 <= i - i / k - 1 < |Strided(s, k, false)|
                           && Strided(s, k, false)[i - i / k - 1] == s[i]
  {
    StridedAtPrefix(s, k, i);
    StridedCounts(s[..i], k);
  }

  /** The sizes of the two parts of `s`: `ceil(len(s) / k)` positions on the stride, the rest off it. */
  lemma StridedCounts<T>(s: seq<T>, k: nat)
    requires k > 0
    ensures |Strided(s, k, true)| == |s| / k + (if |s| % k == 0 then 0 else 1)
    ensures |Strided(s, k, false)| == |s| - |Strided(s, k, true)|
  {
    StridedLength(s, k);
    StridedPartition(s, k);
    CeilDiv(|s|, k);
  }

  // ---------------------------------------------------------------------------
  // Enumerating a set: `list(set(...))` and `random.sample`

  lemma {:induction false} Enumeration<T>(s: set<T>) returns (q: seq<T>)
    ensures Distinct(q) && Elems(q) == s && |q| == |s|
    decreases |s|
  {
    if s == {} {
      q := [];
    } else {
      var x := Pick(s);
      var rest := Enumeration(s - {x});
      q := [x] + rest;
      assert Elems(q) == {x} + Elems(rest);
    }
  }

  lemma Pick<T>(s: set<T>) returns (x: T)
    requires s != {}
    ensures x in s
  {
    var e :| e in s;
    x := e;
  }

  lemma DistinctPrefix<T>(s: seq<T>, k: nat)
    requires Distinct(s) && k <= |s|
    ensures Distinct(s[..k]) && Elems(s[..k]) <= Elems(s)
  {
  }
}
