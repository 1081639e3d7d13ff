/**
 * The diagonal-axis bookkeeping of hftools/uncertainty/oldfromarrayobj.py.
 *
 * An array is described by its axis list (`dims`, absent for a plain numpy
 * array), its shape and, where memory layout matters, its strides counted
 * in elements. A diagonal view is a list of extents and strides computed
 * from those of the array; element `k` of its collapsed axis sits at offset
 * `k * sum(strides)` of the collapsed axes. Buffer addresses are not
 * modelled.
 */
module Diagonal {
  import opened Wrappers

  // ---------------------------------------------------------------------
  // Axes
  // ---------------------------------------------------------------------

  /**
   * The axis kinds the diagonal code tells apart. `Other` stands for every
   * kind it does not look at. `Indep`, `Deriv` and `Diag` are the
   * independent, derivative and diagonal kinds; their complex variants
   * carry `complex == true`. Of an axis's data only its length, `extent`,
   * is kept.
   */
  datatype Axis =
    | Other(name: string, extent: nat)
    | Indep(name: string, extent: nat, complex: bool)
    | Deriv(name: string, extent: nat, complex: bool)
    | Diag(name: string, extent: nat, complex: bool)

  /** One of the complex axis kinds (complex independent, derivative or diagonal). */
  predicate IsComplex(a: Axis) {
    !a.Other? && a.complex
  }

  /** The independent axis a diagonal axis stands for, with the same data. */
  function IndepAxis(d: Axis): Axis
    requires d.Diag?
  {
    Indep(d.name, d.extent, d.complex)
  }

  /** The derivative axis a diagonal axis stands for, with the same data. */
  function DerivAxis(d: Axis): Axis
    requires d.Diag?
  {
    Deriv(d.name, d.extent, d.complex)
  }

  /** The pair of complex axes appended for the 2×2 real block of a complex scalar. */
  const Cplx: seq<Axis> := [Indep("cplx", 2, true), Deriv("cplx", 2, true)]

  /** `dims_has_complex`: scans the axes from the last one back. */
  function HasComplex(dims: seq<Axis>): (r: bool)
    ensures r <==> exists i :: 0 <= i < |dims| && IsComplex(dims[i])
  {
    if |dims| == 0 then false
    else IsComplex(dims[|dims| - 1]) || HasComplex(dims[..|dims| - 1])
  }

  /** The extents the axes' data give, axis by axis. */
  function Extents(dims: seq<Axis>): seq<nat> {
    seq(|dims|, i requires 0 <= i < |dims| => dims[i].extent)
  }

  /** An array's axis list, if it has one, and its shape. */
  datatype Layout = Layout(dims: Option<seq<Axis>>, shape: seq<nat>)

  /** An array with an axis list has one axis per dimension, of the axis's extent. */
  predicate Valid(x: Layout) {
    x.dims.Some? ==> x.shape == Extents(x.dims.value)
  }

  /** `isfullcomplex`: an object without `dims` is never full-complex. */
  function IsFullComplex(x: Layout): (r: bool)
    ensures r <==> x.dims.Some? && exists i :: 0 <= i < |x.dims.value| && IsComplex(x.dims.value[i])
  {
    x.dims.Some? && HasComplex(x.dims.value)
  }

  /** `list.index`: the first position of `a`, or `ValueError`. */
  function IndexOf(s: seq<Axis>, a: Axis): (r: Result<nat>)
    ensures r.Ok? <==> a in s
    ensures r.Ok? ==> r.value < |s| && s[r.value] == a && a !in s[..r.value]
    ensures r.Err? ==> r.error == ValueError
  {
    if |s| == 0 then Err(ValueError)
    else if s[0] == a then Ok(0)
    else match IndexOf(s[1..], a)
      case Err(e) => Err(e)
      case Ok(i) =>
        assert s[..i + 1] == [s[0]] + s[1..][..i];
        Ok(i + 1)
  }

  /** `[dims.index(ax) for ax in diagonal]`. */
  function Indices(dims: seq<Axis>, diagonal: seq<Axis>): (r: Result<seq<nat>>)
    ensures r.Ok? <==> forall k | 0 <= k < |diagonal| :: diagonal[k] in dims
    ensures r.Ok? ==> |r.value| == |diagonal|
    ensures r.Ok? ==> forall k | 0 <= k < |diagonal| :: r.value[k] < |dims| && dims[r.value[k]] == diagonal[k]
    ensures r.Err? ==> r.error == ValueError
  {
    if |diagonal| == 0 then Ok([])
    else match IndexOf(dims, diagonal[0])
      case Err(e) => Err(e)
      case Ok(i) =>
        match Indices(dims, diagonal[1..])
        case Err(e) => Err(e)
        case Ok(rest) => Ok([i] + rest)
  }

  predicate Distinct<T(==)>(s: seq<T>) {
    forall i, j | 0 <= i < j < |s| :: s[i] != s[j]
  }

  /** Distinct axes are found at distinct positions. */
  lemma DistinctIndices(dims: seq<Axis>, diagonal: seq<Axis>)
    requires Distinct(diagonal) && Indices(dims, diagonal).Ok?
    ensures Distinct(Indices(dims, diagonal).value)
  {
  }

  // ---------------------------------------------------------------------
  // Sorting the positions, largest first
  // ---------------------------------------------------------------------

  predicate Descending(s: seq<nat>) {
    forall i, j | 0 <= i < j < |s| :: s[i] >= s[j]
  }

  predicate StrictlyDescending(s: seq<nat>) {
    forall i, j | 0 <= i < j < |s| :: s[i] > s[j]
  }

  /** Inserts `x` into a list sorted largest first, before the first entry not above it. */
  function InsertDescending(x: nat, s: seq<nat>): (r: seq<nat>)
    ensures multiset(r) == multiset(s) + multiset{x}
  {
    if |s| == 0 || x >= s[0] then [x] + s
    else
      assert s == [s[0]] + s[1..];
      [s[0]] + InsertDescending(x, s[1..])
  }

  /** Every entry of the insertion is `x` or an entry of `s`. */
  lemma InsertMembers(x: nat, s: seq<nat>, j: nat)
    requires j < |InsertDescending(x, s)|
    ensures InsertDescending(x, s)[j] == x || InsertDescending(x, s)[j] in s
  {
    var t := InsertDescending(x, s);
    assert t[j] in multiset(t);
  }

  lemma {:induction false} InsertKeepsOrder(x: nat, s: seq<nat>)
    requires Descending(s)
    ensures Descending(InsertDescending(x, s))
  {
    if |s| > 0 && x < s[0] {
      InsertKeepsOrder(x, s[1..]);
      var t := InsertDescending(x, s[1..]);
      forall j | 0 <= j < |t|
        ensures s[0] >= t[j]
      {
        InsertMembers(x, s[1..], j);
      }
    }
  }

  lemma {:induction false} InsertKeepsStrictOrder(x: nat, s: seq<nat>)
    requires StrictlyDescending(s) && x !in s
    ensures StrictlyDescending(InsertDescending(x, s))
  {
    if |s| > 0 && x < s[0] {
      InsertKeepsStrictOrder(x, s[1..]);
      var t := InsertDescending(x, s[1..]);
      forall j | 0 <= j < |t|
        ensures s[0] > t[j]
      {
        InsertMembers(x, s[1..], j);
      }
    }
  }

  /** `indices.sort(reverse=True)`. */
  function SortDescending(s: seq<nat>): (r: seq<nat>)
    ensures multiset(r) == multiset(s)
  {
    if |s| == 0 then []
    else
      assert s == [s[0]] + s[1..];
      InsertDescending(s[0], SortDescending(s[1..]))
  }

  /** The sort puts the positions largest first, strictly so when they are distinct. */
  lemma {:induction false} SortDescendingOrders(s: seq<nat>)
    ensures Descending(SortDescending(s))
    ensures Distinct(s) ==> StrictlyDescending(SortDescending(s))
  {
    if |s| > 0 {
      SortDescendingOrders(s[1..]);
      var t := SortDescending(s[1..]);
      InsertKeepsOrder(s[0], t);
      if Distinct(s) {
        assert Distinct(s[1..]);
        assert s[0] !in multiset(s[1..]);
        InsertKeepsStrictOrder(s[0], t);
      }
    }
  }

  // ---------------------------------------------------------------------
  // Deleting positions, and the collapsed extent and stride
  // ---------------------------------------------------------------------

  /** The entries of `s` at the positions not in `gone`, in their original order. */
  function Kept<T>(s: seq<T>, gone: set<int>): seq<T> {
    if |s| == 0 then []
    else Kept(s[..|s| - 1], gone) + (if |s| - 1 in gone then [] else [s[|s| - 1]])
  }

  /** Positions beyond the end are irrelevant. */
  lemma {:induction false} KeptNone<T>(s: seq<T>, gone: set<int>)
    requires forall g | g in gone :: g >= |s|
    ensures Kept(s, gone) == s
  {
    if |s| > 0 {
      KeptNone(s[..|s| - 1], gone);
    }
  }

  /** Positions before the first deleted one keep their entries. */
  lemma {:induction false} KeptPrefix<T>(s: seq<T>, gone: set<int>, m: nat)
    requires m <= |s|
    requires forall g | g in gone :: g >= m
    ensures |Kept(s, gone)| >= m && Kept(s, gone)[..m] == s[..m]
  {
    if |s| == m {
      KeptNone(s, gone);
    } else {
      KeptPrefix(s[..|s| - 1], gone, m);
      assert s[..|s| - 1][..m] == s[..m];
    }
  }

  /** A position below every deleted one still holds its entry. */
  lemma KeptAt<T>(s: seq<T>, gone: set<int>, i: nat)
    requires i < |s|
    requires forall g | g in gone :: g > i
    ensures i < |Kept(s, gone)| && Kept(s, gone)[i] == s[i]
  {
    KeptPrefix(s, gone, i + 1);
    assert Kept(s, gone)[..i + 1][i] == s[..i + 1][i];
  }

  /** Deleting position `i`, below every deleted one, removes the entry at `i` of what is kept. */
  lemma {:induction false} KeptRemove<T>(s: seq<T>, gone: set<int>, i: nat)
    requires i < |s| && i !in gone
    requires forall g | g in gone :: g > i
    ensures i < |Kept(s, gone)|
    ensures Kept(s, gone + {i}) == Kept(s, gone)[..i] + Kept(s, gone)[i + 1..]
  {
    KeptAt(s, gone, i);
    if |s| - 1 == i {
      KeptRemoveLast(s, gone);
      assert s[i + 1..] == [];
    } else {
      KeptRemove(s[..|s| - 1], gone, i);
      KeptRemoveStep(s, gone, i);
    }
  }

  /** The base case of `KeptRemove`: deleting the last position, above which nothing is deleted. */
  lemma KeptRemoveLast<T>(s: seq<T>, gone: set<int>)
    requires |s| > 0 && |s| - 1 !in gone
    requires forall g | g in gone :: g > |s| - 1
    ensures Kept(s, gone) == s && Kept(s, gone + {|s| - 1}) == s[..|s| - 1]
  {
    var n := |s| - 1;
    var p := s[..n];
    KeptNone(s, gone);
    KeptNone(p, gone + {n});
    assert Kept(s, gone + {n}) == p;
  }

  /** The inductive step of `KeptRemove`: the last entry is kept or dropped alike on both sides. */
  lemma KeptRemoveStep<T>(s: seq<T>, gone: set<int>, i: nat)
    requires i < |s| - 1 && i !in gone
    requires i < |Kept(s[..|s| - 1], gone)|
    requires Kept(s[..|s| - 1], gone + {i})
             == Kept(s[..|s| - 1], gone)[..i] + Kept(s[..|s| - 1], gone)[i + 1..]
    ensures Kept(s, gone + {i}) == Kept(s, gone)[..i] + Kept(s, gone)[i + 1..]
  {
    var n := |s| - 1;
    var kp := Kept(s[..n], gone);
    var tail := if n in gone then [] else [s[n]];
    assert Kept(s, gone) == kp + tail;
    assert Kept(s, gone + {i}) == Kept(s[..n], gone + {i}) + tail;
    SpliceTail(kp, tail, i);
  }

  /** Removing entry `i` of `a + b`, with `i` inside `a`, removes it from `a`. */
  lemma SpliceTail<T>(a: seq<T>, b: seq<T>, i: nat)
    requires i < |a|
    ensures (a + b)[..i] + (a + b)[i + 1..] == (a[..i] + a[i + 1..]) + b
  {
    assert (a + b)[..i] == a[..i];
    assert (a + b)[i + 1..] == a[i + 1..] + b;
  }

  /**
   * Deleting position `i` from a list whose deleted positions all lie above
   * `i` removes the entry of `s` at `i`, which is still at `i`: the step the
   * loop of `diagonal_view` takes for each position, largest first.
   */
  lemma KeptDelete<T>(s: seq<T>, gone: set<int>, i: nat)
    requires i < |s| && i !in gone
    requires forall g | g in gone :: g > i
    ensures i < |Kept(s, gone)| && Kept(s, gone)[i] == s[i]
    ensures Kept(s, gone + {i}) == Kept(s, gone)[..i] + Kept(s, gone)[i + 1..]
  {
    KeptAt(s, gone, i);
    KeptRemove(s, gone, i);
  }

  /** A position beyond the end may be dropped from `gone`. */
  lemma {:induction false} KeptIgnores<T>(s: seq<T>, gone: set<int>, j: int)
    requires j >= |s|
    ensures Kept(s, gone) == Kept(s, gone - {j})
  {
    if |s| > 0 {
      KeptIgnores(s[..|s| - 1], gone, j);
    }
  }

  /** Deleting `|gone|` positions of the list shortens it by `|gone|`. */
  lemma {:induction false} KeptLength<T>(s: seq<T>, gone: set<int>)
    requires forall g | g in gone :: 0 <= g < |s|
    ensures |Kept(s, gone)| == |s| - |gone|
  {
    if |s| > 0 {
      var n := |s| - 1;
      if n in gone {
        KeptIgnores(s[..n], gone, n);
        KeptLength(s[..n], gone - {n});
        assert gone == (gone - {n}) + {n};
      } else {
        KeptLength(s[..n], gone);
      }
    } else {
      assert forall g :: g !in gone;
      assert gone == {};
    }
  }

  function Elems(s: seq<nat>): set<int> {
    set x | x in s
  }

  /** A list of distinct positions has as many elements as entries. */
  lemma {:induction false} DistinctElems(s: seq<nat>)
    ensures Distinct(s) ==> |Elems(s)| == |s|
  {
    if |s| > 0 && Distinct(s) {
      var n := |s| - 1;
      DistinctElems(s[..n]);
      assert Elems(s) == Elems(s[..n]) + {s[n]};
    }
  }

  /** The entries of `s` at the listed positions, in the order listed. */
  function Pick<T>(s: seq<T>, idxs: seq<nat>): (r: seq<T>)
    requires forall k | 0 <= k < |idxs| :: idxs[k] < |s|
  {
    seq(|idxs|, k requires 0 <= k < |idxs| => s[idxs[k]])
  }

  /** Python `sum`, accumulated left to right. */
  function SumOf(xs: seq<int>): int {
    if |xs| == 0 then 0 else SumOf(xs[..|xs| - 1]) + xs[|xs| - 1]
  }

  /** Python `min` of a non-empty list. */
  function MinOf(xs: seq<nat>): (m: nat)
    requires |xs| > 0
    ensures exists k :: 0 <= k < |xs| && xs[k] == m
    ensures forall k | 0 <= k < |xs| :: m <= xs[k]
  {
    if |xs| == 1 then xs[0]
    else
      var m := MinOf(xs[..|xs| - 1]);
      if xs[|xs| - 1] < m then xs[|xs| - 1] else m
  }

  /** Removing entry `j` takes it off the sum. */
  lemma {:induction false} SumOfRemove(xs: seq<int>, j: nat)
    requires j < |xs|
    ensures SumOf(xs) == SumOf(xs[..j] + xs[j + 1..]) + xs[j]
  {
    var n := |xs| - 1;
    if j == n {
      assert xs[..j] + xs[j + 1..] == xs[..n];
    } else {
      SumOfRemove(xs[..n], j);
      assert xs[..j] + xs[j + 1..] == (xs[..n][..j] + xs[..n][j + 1..]) + [xs[n]];
    }
  }

  lemma MultisetRemove<T>(s: seq<T>, j: nat)
    requires j < |s|
    ensures multiset(s) == multiset(s[..j] + s[j + 1..]) + multiset{s[j]}
  {
    assert s == s[..j] + [s[j]] + s[j + 1..];
  }

  lemma MultisetLast<T>(s: seq<T>)
    requires |s| > 0
    ensures multiset(s) == multiset(s[..|s| - 1]) + multiset{s[|s| - 1]}
  {
    assert s == s[..|s| - 1] + [s[|s| - 1]];
  }

  lemma PickRemove<T>(s: seq<T>, b: seq<nat>, j: nat)
    requires j < |b| && forall k | 0 <= k < |b| :: b[k] < |s|
    ensures Pick(s, b[..j] + b[j + 1..]) == Pick(s, b)[..j] + Pick(s, b)[j + 1..]
    ensures Pick(s, b)[j] == s[b[j]]
  {
  }

  /** The sum of the picked entries does not depend on the order of the positions. */
  lemma {:induction false} SumOfPickPermutation(s: seq<int>, a: seq<nat>, b: seq<nat>)
    requires multiset(a) == multiset(b)
    requires forall k | 0 <= k < |a| :: a[k] < |s|
    requires forall k | 0 <= k < |b| :: b[k] < |s|
    ensures SumOf(Pick(s, a)) == SumOf(Pick(s, b))
    decreases |a|
  {
    if |a| > 0 {
      var n := |a| - 1;
      var x := a[n];
      var j := Find(a, b);
      var b' := b[..j] + b[j + 1..];
      SumOfPickPermutation(s, a[..n], b');
      PickLast(s, a);
      PickRemove(s, b, j);
      SumOfRemove(Pick(s, b), j);
    } else {
      assert |b| == |multiset(b)|;
    }
  }

  lemma PickLast(s: seq<int>, a: seq<nat>)
    requires |a| > 0 && forall k | 0 <= k < |a| :: a[k] < |s|
    ensures SumOf(Pick(s, a)) == SumOf(Pick(s, a[..|a| - 1])) + s[a[|a| - 1]]
  {
    assert Pick(s, a)[..|a| - 1] == Pick(s, a[..|a| - 1]);
  }

  /** Where the last position of `a` sits in its permutation `b`, and what remains. */
  lemma Find(a: seq<nat>, b: seq<nat>) returns (j: nat)
    requires |a| > 0 && multiset(a) == multiset(b)
    ensures j < |b| && b[j] == a[|a| - 1]
    ensures multiset(a[..|a| - 1]) == multiset(b[..j] + b[j + 1..])
  {
    var n := |a| - 1;
    MultisetLast(a);
    assert a[n] in multiset(b);
    j :| 0 <= j < |b| && b[j] == a[n];
    MultisetRemove(b, j);
    assert multiset(a[..n]) == multiset(a) - multiset{a[n]};
    assert multiset(b[..j] + b[j + 1..]) == multiset(b) - multiset{a[n]};
  }

  /** The minimum of the picked entries depends only on which positions occur. */
  lemma MinOfPickPermutation(s: seq<nat>, a: seq<nat>, b: seq<nat>)
    requires |a| > 0 && multiset(a) == multiset(b)
    requires forall k | 0 <= k < |a| :: a[k] < |s|
    requires forall k | 0 <= k < |b| :: b[k] < |s|
    ensures |b| > 0 && MinOf(Pick(s, a)) == MinOf(Pick(s, b))
  {
    assert a[0] in multiset(b);
    var k :| 0 <= k < |a| && Pick(s, a)[k] == MinOf(Pick(s, a));
    assert a[k] in multiset(b);
    var j :| 0 <= j < |b| && b[j] == a[k];
    assert Pick(s, b)[j] == Pick(s, a)[k];
    var k' :| 0 <= k' < |b| && Pick(s, b)[k'] == MinOf(Pick(s, b));
    assert b[k'] in multiset(a);
    var j' :| 0 <= j' < |a| && a[j'] == b[k'];
    assert Pick(s, a)[j'] == Pick(s, b)[k'];
  }

  /** Python `list.insert(i, x)` for `i >= 0`: an index past the end appends. */
  function InsertAt<T>(s: seq<T>, i: nat, x: T): seq<T> {
    var j := if i <= |s| then i else |s|;
    s[..j] + [x] + s[j..]
  }

  // ---------------------------------------------------------------------
  // diagonal_view
  // ---------------------------------------------------------------------

  /**
   * The extents and strides of the view that indexes the diagonal of the
   * axes at positions `idxs`: those positions are deleted, and one axis is
   * inserted where `list.insert` puts the first listed position, with the
   * minimum of the deleted extents and the sum of the deleted strides.
   */
  function ViewSpec(shape: seq<nat>, strides: seq<int>, idxs: seq<nat>): (r: (seq<nat>, seq<int>))
    requires |strides| == |shape| && |idxs| > 0
    requires forall k | 0 <= k < |idxs| :: idxs[k] < |shape|
    ensures Distinct(idxs) ==> |r.0| == |shape| - |idxs| + 1 && |r.1| == |shape| - |idxs| + 1
  {
    DistinctElems(idxs);
    KeptLength(shape, Elems(idxs));
    KeptLength(strides, Elems(idxs));
    (InsertAt(Kept(shape, Elems(idxs)), idxs[0], MinOf(Pick(shape, idxs))),
     InsertAt(Kept(strides, Elems(idxs)), idxs[0], SumOf(Pick(strides, idxs))))
  }

  /** Where `list.insert(i, x)` puts `x` in a list of length `n`. */
  function InsertPosition(i: nat, n: nat): nat {
    if i <= n then i else n
  }

  lemma InsertAtParts<T>(s: seq<T>, i: nat, x: T)
    ensures var j := InsertPosition(i, |s|);
      && |InsertAt(s, i, x)| == |s| + 1
      && InsertAt(s, i, x)[j] == x
      && InsertAt(s, i, x)[..j] + InsertAt(s, i, x)[j + 1..] == s
  {
    var j := InsertPosition(i, |s|);
    assert InsertAt(s, i, x)[..j] == s[..j];
    assert InsertAt(s, i, x)[j + 1..] == s[j..];
  }

  /**
   * The collapsed axis sits at the first listed position, or at the end when
   * that position is past the end of the shortened list. Its extent is the
   * smallest of the collapsed extents and its stride their sum.
   */
  lemma ViewCollapsed(shape: seq<nat>, strides: seq<int>, idxs: seq<nat>)
    requires |strides| == |shape| && |idxs| > 0 && Distinct(idxs)
    requires forall k | 0 <= k < |idxs| :: idxs[k] < |shape|
    ensures var v := ViewSpec(shape, strides, idxs);
      var at := InsertPosition(idxs[0], |shape| - |idxs|);
      && (forall k | 0 <= k < |idxs| :: v.0[at] <= shape[idxs[k]])
      && (exists k :: 0 <= k < |idxs| && v.0[at] == shape[idxs[k]])
      && v.1[at] == SumOf(Pick(strides, idxs))
  {
    var v := ViewSpec(shape, strides, idxs);
    var m := MinOf(Pick(shape, idxs));
    ViewParts(shape, strides, idxs);
    var k :| 0 <= k < |idxs| && Pick(shape, idxs)[k] == m;
    assert v.0[InsertPosition(idxs[0], |shape| - |idxs|)] == shape[idxs[k]];
    forall k' | 0 <= k' < |idxs|
      ensures m <= shape[idxs[k']]
    {
      assert Pick(shape, idxs)[k'] == shape[idxs[k']];
    }
  }

  /** The axes of the view other than the collapsed one are the ones not collapsed, in order. */
  lemma ViewOthers(shape: seq<nat>, strides: seq<int>, idxs: seq<nat>)
    requires |strides| == |shape| && |idxs| > 0 && Distinct(idxs)
    requires forall k | 0 <= k < |idxs| :: idxs[k] < |shape|
    ensures var v := ViewSpec(shape, strides, idxs);
      var at := InsertPosition(idxs[0], |shape| - |idxs|);
      && v.0[..at] + v.0[at + 1..] == Kept(shape, Elems(idxs))
      && v.1[..at] + v.1[at + 1..] == Kept(strides, Elems(idxs))
  {
    ViewParts(shape, strides, idxs);
  }

  lemma ViewParts(shape: seq<nat>, strides: seq<int>, idxs: seq<nat>)
    requires |strides| == |shape| && |idxs| > 0 && Distinct(idxs)
    requires forall k | 0 <= k < |idxs| :: idxs[k] < |shape|
    ensures var v := ViewSpec(shape, strides, idxs);
      var at := InsertPosition(idxs[0], |shape| - |idxs|);
      && v.0[at] == MinOf(Pick(shape, idxs))
      && v.1[at] == SumOf(Pick(strides, idxs))
      && v.0[..at] + v.0[at + 1..] == Kept(shape, Elems(idxs))
      && v.1[..at] + v.1[at + 1..] == Kept(strides, Elems(idxs))
  {
    DistinctElems(idxs);
    KeptLength(shape, Elems(idxs));
    KeptLength(strides, Elems(idxs));
    InsertAtParts(Kept(shape, Elems(idxs)), idxs[0], MinOf(Pick(shape, idxs)));
    InsertAtParts(Kept(strides, Elems(idxs)), idxs[0], SumOf(Pick(strides, idxs)));
  }

  /** Axes before every collapsed one keep their position, extent and stride. */
  lemma ViewKeepsLeading(shape: seq<nat>, strides: seq<int>, idxs: seq<nat>, j: nat)
    requires |strides| == |shape| && |idxs| > 0
    requires forall k | 0 <= k < |idxs| :: j < idxs[k] < |shape|
    ensures j < |ViewSpec(shape, strides, idxs).0| && ViewSpec(shape, strides, idxs).0[j] == shape[j]
    ensures j < |ViewSpec(shape, strides, idxs).1| && ViewSpec(shape, strides, idxs).1[j] == strides[j]
  {
    assert j < idxs[0];
    KeptPrefix(shape, Elems(idxs), j + 1);
    KeptPrefix(strides, Elems(idxs), j + 1);
    assert Kept(shape, Elems(idxs))[..j + 1][j] == shape[..j + 1][j];
    assert Kept(strides, Elems(idxs))[..j + 1][j] == strides[..j + 1][j];
  }

  /**
   * The view over both axes of a C-contiguous N×N block (strides N and 1)
   * has one axis of extent N and stride N + 1: its element k is element
   * (k, k) of the block.
   */
  lemma SquareDiagonalView(n: nat)
    ensures ViewSpec([n, n], [n, 1], [0, 1]) == ([n], [n + 1])
  {
    var sh: seq<nat> := [n, n];
    var st: seq<int> := [n, 1];
    assert Elems([0, 1]) == {0, 1};
    assert sh[..1] == [n] && st[..1] == [n] && sh[..1][..0] == [] && st[..1][..0] == [];
    assert Kept(sh[..1][..0], {0, 1}) == [] && Kept(sh[..1], {0, 1}) == [] && Kept(sh, {0, 1}) == [];
    assert Kept(st[..1][..0], {0, 1}) == [] && Kept(st[..1], {0, 1}) == [] && Kept(st, {0, 1}) == [];
    assert Pick(sh, [0, 1]) == sh;
    assert Pick(st, [0, 1]) == st;
    assert SumOf(st[..1][..0]) == 0 && SumOf(st[..1]) == n && SumOf(st) == n + 1;
    assert MinOf(sh) == n;
    var e: seq<nat> := [];
    var f: seq<int> := [];
    assert InsertAt(e, 0, n) == [n];
    assert InsertAt(f, 0, n + 1) == [n + 1];
    assert ViewSpec(sh, st, [0, 1]).0 == InsertAt(Kept(sh, Elems([0, 1])), 0, MinOf(Pick(sh, [0, 1])));
  }

  /** One turn of the deletion loop, positions largest first. */
  lemma DeleteStep<T>(s: seq<T>, sorted: seq<nat>, t: nat)
    requires StrictlyDescending(sorted) && t < |sorted|
    requires forall k | 0 <= k < |sorted| :: sorted[k] < |s|
    ensures var idx := sorted[t];
      var kept := Kept(s, Elems(sorted[..t]));
      && idx < |kept| && kept[idx] == s[idx]
      && Kept(s, Elems(sorted[..t + 1])) == kept[..idx] + kept[idx + 1..]
  {
    assert forall g | g in Elems(sorted[..t]) :: g > sorted[t];
    KeptDelete(s, Elems(sorted[..t]), sorted[t]);
    assert Elems(sorted[..t + 1]) == Elems(sorted[..t]) + {sorted[t]};
  }

  lemma PickStep<T>(s: seq<T>, sorted: seq<nat>, t: nat)
    requires t < |sorted| && forall k | 0 <= k < |sorted| :: sorted[k] < |s|
    ensures Pick(s, sorted[..t + 1]) == Pick(s, sorted[..t]) + [s[sorted[t]]]
  {
  }

  /** Deleting and collapsing in sorted order gives the view of the positions as listed. */
  lemma ViewOfSorted(shape: seq<nat>, strides: seq<int>, indices: seq<nat>, sorted: seq<nat>)
    requires |strides| == |shape| && |indices| > 0 && multiset(sorted) == multiset(indices)
    requires forall k | 0 <= k < |indices| :: indices[k] < |shape|
    requires forall k | 0 <= k < |sorted| :: sorted[k] < |shape|
    ensures |sorted| > 0
    ensures ViewSpec(shape, strides, indices)
         == (InsertAt(Kept(shape, Elems(sorted)), indices[0], MinOf(Pick(shape, sorted))),
             InsertAt(Kept(strides, Elems(sorted)), indices[0], SumOf(Pick(strides, sorted))))
  {
    assert Elems(sorted) == Elems(indices) by {
      forall g
        ensures g in Elems(sorted) <==> g in Elems(indices)
      {
        assert g in sorted <==> g in multiset(sorted);
        assert g in indices <==> g in multiset(indices);
      }
    }
    MinOfPickPermutation(shape, indices, sorted);
    SumOfPickPermutation(strides, sorted, indices);
  }

  /** The sorted positions of distinct axes found in a list as long as the shape. */
  lemma SortedInRange(x: Layout, diagonal: seq<Axis>, indices: seq<nat>, sorted: seq<nat>)
    requires x.dims.Some? && |x.dims.value| == |x.shape| && Distinct(diagonal)
    requires Indices(x.dims.value, diagonal) == Ok(indices)
    requires sorted == SortDescending(indices)
    ensures StrictlyDescending(sorted)
    ensures forall k | 0 <= k < |sorted| :: sorted[k] < |x.shape|
  {
    DistinctIndices(x.dims.value, diagonal);
    SortDescendingOrders(indices);
    forall k | 0 <= k < |sorted|
      ensures sorted[k] < |x.shape|
    {
      assert sorted[k] in multiset(indices);
    }
  }

  /**
   * The loop of `diagonal_view`: deletes the positions in the order given,
   * adding up the deleted strides and collecting the deleted extents. A
   * position past the end of the shortened lists raises `IndexError`; this
   * cannot happen for distinct positions, largest first.
   */
  method DeleteAxes(shape: seq<nat>, strides: seq<int>, sorted: seq<nat>)
    returns (r: Result<(seq<nat>, seq<int>, seq<nat>, int)>)
    requires |strides| == |shape|
    ensures r.Ok? ==> |r.value.2| == |sorted|
    ensures StrictlyDescending(sorted) && (forall k | 0 <= k < |sorted| :: sorted[k] < |shape|)
            ==> r == Ok((Kept(shape, Elems(sorted)), Kept(strides, Elems(sorted)),
                         Pick(shape, sorted), SumOf(Pick(strides, sorted))))
  {
    ghost var ok := StrictlyDescending(sorted) && forall k | 0 <= k < |sorted| :: sorted[k] < |shape|;
    assert Elems(sorted[..0]) == {};
    KeptNone(shape, {});
    KeptNone(strides, {});
    var diagstride := 0;
    var diagshapes: seq<nat> := [];
    var newstrides := strides;
    var newshapes := shape;
    for t := 0 to |sorted|
      invariant |newshapes| == |newstrides| && |diagshapes| == t
      invariant ok ==> newshapes == Kept(shape, Elems(sorted[..t])) && newstrides == Kept(strides, Elems(sorted[..t]))
      invariant ok ==> diagshapes == Pick(shape, sorted[..t]) && diagstride == SumOf(Pick(strides, sorted[..t]))
    {
      var idx := sorted[t];
      if ok {
        DeleteStep(shape, sorted, t);
        DeleteStep(strides, sorted, t);
        PickStep(shape, sorted, t);
        PickStep(strides, sorted, t);
        assert Pick(strides, sorted[..t + 1])[..t] == Pick(strides, sorted[..t]);
      }
      if idx >= |newstrides| {
        return Err(IndexError);
      }
      diagstride := diagstride + newstrides[idx];
      diagshapes := diagshapes + [newshapes[idx]];
      newstrides := newstrides[..idx] + newstrides[idx + 1..];
      newshapes := newshapes[..idx] + newshapes[idx + 1..];
    }
    assert sorted[..|sorted|] == sorted;
    return Ok((newshapes, newstrides, diagshapes, diagstride));
  }

  /**
   * `diagonal_view` on an array with axis list `x.dims`, shape `x.shape` and
   * element strides `strides`. When the listed axes are distinct and found,
   * the view is `ViewSpec` of their positions.
   */
  method DiagonalView(x: Layout, strides: seq<int>, diagonal: seq<Axis>) returns (r: Result<(seq<nat>, seq<int>)>)
    requires |strides| == |x.shape|
    ensures |diagonal| == 0 ==> r == Err(IndexError)
    ensures |diagonal| > 0 && x.dims.None? ==> r == Err(AttributeError)
    ensures |diagonal| > 0 && x.dims.Some? && Indices(x.dims.value, diagonal).Err? ==> r == Err(ValueError)
    ensures |diagonal| > 0 && x.dims.Some? && |x.dims.value| == |x.shape| && Distinct(diagonal)
            && Indices(x.dims.value, diagonal).Ok?
            ==> r == Ok(ViewSpec(x.shape, strides, Indices(x.dims.value, diagonal).value))
  {
    if |diagonal| == 0 {
      return Err(IndexError);
    }
    if x.dims.None? {
      return Err(AttributeError);
    }
    var found := Indices(x.dims.value, diagonal);
    if found.Err? {
      return Err(found.error);
    }
    var indices := found.value;
    var first := indices[0];
    var sorted := SortDescending(indices);
    if |x.dims.value| == |x.shape| && Distinct(diagonal) {
      SortedInRange(x, diagonal, indices, sorted);
    }
    var deleted := DeleteAxes(x.shape, strides, sorted);
    if deleted.Err? {
      return Err(deleted.error);
    }
    var (newshapes, newstrides, diagshapes, diagstride) := deleted.value;
    newshapes := InsertAt(newshapes, first, MinOf(diagshapes));
    newstrides := InsertAt(newstrides, first, diagstride);
    if |x.dims.value| == |x.shape| && Distinct(diagonal) {
      ViewOfSorted(x.shape, strides, indices, sorted);
    }
    r := Ok((newshapes, newstrides));
  }

  // ---------------------------------------------------------------------
  // Writing a vector onto the diagonal of a zero N×N block
  // ---------------------------------------------------------------------

  lemma MulMonotone(a: int, b: int, n: nat)
    requires a <= b
    ensures a * n <= b * n
  {
    assert b * n - a * n == (b - a) * n;
  }

  /** Offset of element (i, j) of a C-contiguous N×N block: always inside the block. */
  function Offset2(i: nat, j: nat, n: nat): (r: nat)
    requires i < n && j < n
    ensures r < n * n
  {
    assert (i + 1) * n == i * n + n;
    MulMonotone(i + 1, n, n);
    i * n + j
  }

  /** Distinct elements of an N×N block have distinct offsets. */
  lemma Offset2Unique(i: nat, j: nat, k: nat, l: nat, n: nat)
    requires i < n && j < n && k < n && l < n
    ensures Offset2(i, j, n) == Offset2(k, l, n) ==> i == k && j == l
  {
    assert (i + 1) * n == i * n + n;
    assert (k + 1) * n == k * n + n;
    if i < k {
      MulMonotone(i + 1, k, n);
    } else if k < i {
      MulMonotone(k + 1, i, n);
    }
  }

  /**
   * Writes `v` through the diagonal view of a zero N×N block, N = |v|, as
   * `_expand_diagonal` does for the (independent, derivative) pair: element
   * `k` of the view sits at offset `k` times the view's stride. Afterwards
   * the block holds `v[k]` at (k, k) and zero everywhere else.
   */
  method WriteDiagonal(v: seq<real>) returns (block: seq<real>)
    ensures |block| == |v| * |v|
    ensures forall i, j | 0 <= i < |v| && 0 <= j < |v| ::
              block[Offset2(i, j, |v|)] == if i == j then v[i] else 0.0
  {
    var n := |v|;
    var buf := new real[n * n](_ => 0.0);
    SquareDiagonalView(n);
    var view := ViewSpec([n, n], [n, 1], [0, 1]);
    var stride := view.1[0];
    for k := 0 to n
      invariant forall i, j | 0 <= i < n && 0 <= j < n ::
                  buf[Offset2(i, j, n)] == if i == j && i < k then v[i] else 0.0
    {
      var offset := k * stride;
      assert offset == Offset2(k, k, n) by {
        assert k * (n + 1) == k * n + k;
      }
      forall i, j | 0 <= i < n && 0 <= j < n
        ensures Offset2(i, j, n) == offset <==> i == k && j == k
      {
        Offset2Unique(i, j, k, k, n);
      }
      buf[offset] := v[k];
    }
    block := buf[..];
  }

  // ---------------------------------------------------------------------
  // Expanding diagonal axes
  // ---------------------------------------------------------------------

  /**
   * `_expand_diagonal`: the diagonal axis `ax` is replaced, at its first
   * position, by its (independent, derivative) pair, both of the axis's
   * extent; every other axis keeps its place and extent.
   */
  function ExpandDiagonal(x: Layout, ax: Axis): (r: Result<Layout>)
    requires Valid(x)
    ensures r.Ok? <==> ax.Diag? && x.dims.Some? && ax in x.dims.value
    ensures !ax.Diag? ==> r == Err(NotDiagAxis)
    ensures ax.Diag? && x.dims.None? ==> r == Err(AttributeError)
    ensures ax.Diag? && x.dims.Some? && ax !in x.dims.value ==> r == Err(AxisNotFound)
    ensures r.Ok? ==> Valid(r.value) && r.value.dims.Some?
    ensures r.Ok? ==>
              var dims, i := x.dims.value, IndexOf(x.dims.value, ax).value;
              var out := r.value.dims.value;
              |out| == |dims| + 1 && out[..i] == dims[..i] && ax !in out[..i] &&
              out[i] == IndepAxis(ax) && out[i + 1] == DerivAxis(ax) &&
              out[i + 2..] == dims[i + 1..] &&
              r.value.shape[i] == ax.extent == r.value.shape[i + 1]
  {
    if !ax.Diag? then Err(NotDiagAxis)
    else if x.dims.None? then Err(AttributeError)
    else if ax !in x.dims.value then Err(AxisNotFound)
    else
      var dims := x.dims.value;
      var i := IndexOf(dims, ax).value;
      var out := dims[..i] + [IndepAxis(ax), DerivAxis(ax)] + dims[i + 1..];
      assert out[..i] == dims[..i];
      assert out[i + 2..] == dims[i + 1..];
      Ok(Layout(Some(out), Extents(out)))
  }

  /** The body of the loop of `expand_diagonals`: expands the axes of `diags` in turn. */
  function ExpandEach(x: Layout, diags: seq<Axis>): (r: Result<Layout>)
    requires Valid(x)
    ensures r.Ok? ==> Valid(r.value)
    ensures r.Ok? && |diags| > 0 ==>
              x.dims.Some? && r.value.dims.Some? &&
              |r.value.dims.value| == |x.dims.value| + |diags|
    ensures r.Err? ==> |diags| > 0
    decreases |diags|
  {
    if |diags| == 0 then Ok(x)
    else match ExpandDiagonal(x, diags[0])
      case Err(e) => Err(e)
      case Ok(y) => ExpandEach(y, diags[1..])
  }

  /** `[ax for ax in dims if isinstance(ax, _DiagAxis)]`. */
  function DiagAxes(dims: seq<Axis>): (r: seq<Axis>)
    ensures |r| <= |dims|
    ensures forall k | 0 <= k < |r| :: r[k].Diag? && r[k] in dims
    ensures forall k | 0 <= k < |dims| && dims[k].Diag? :: dims[k] in r
  {
    if |dims| == 0 then []
    else
      var rest := DiagAxes(dims[1..]);
      assert forall k | 1 <= k < |dims| :: dims[k] == dims[1..][k - 1];
      (if dims[0].Diag? then [dims[0]] else []) + rest
  }

  /** The diagonal axes keep the order of the list: filtering distributes over concatenation. */
  lemma {:induction false} DiagAxesAppend(a: seq<Axis>, b: seq<Axis>)
    ensures DiagAxes(a + b) == DiagAxes(a) + DiagAxes(b)
    decreases |a|
  {
    if a == [] {
      assert a + b == b;
    } else {
      var ax, tail := a[0], a[1..];
      assert a == [ax] + tail;
      assert a + b == [ax] + (tail + b);
      DiagAxesCons(ax, tail + b);
      DiagAxesCons(ax, tail);
      DiagAxesAppend(tail, b);
      SeqAssoc(if ax.Diag? then [ax] else [], DiagAxes(tail), DiagAxes(b));
    }
  }

  /**
   * The reference result of expanding every diagonal axis: each one
   * replaced in place by its pair, so no diagonal axis is left.
   */
  function Expanded(dims: seq<Axis>): (r: seq<Axis>)
    ensures |r| == |dims| + |DiagAxes(dims)|
    ensures forall k | 0 <= k < |r| :: !r[k].Diag?
  {
    if |dims| == 0 then []
    else
      (if dims[0].Diag? then [IndepAxis(dims[0]), DerivAxis(dims[0])] else [dims[0]])
      + Expanded(dims[1..])
  }

  /** The layout an axis list describes. */
  function LayoutOf(dims: seq<Axis>): (r: Layout)
    ensures Valid(r) && r.dims == Some(dims)
  {
    Layout(Some(dims), Extents(dims))
  }

  /** A diagonal axis right after a prefix with no diagonal axis is expanded in place. */
  lemma ExpandFirst(done: seq<Axis>, ax: Axis, tail: seq<Axis>)
    requires forall k | 0 <= k < |done| :: !done[k].Diag?
    requires ax.Diag?
    ensures ExpandDiagonal(LayoutOf(done + [ax] + tail), ax)
            == Ok(LayoutOf(done + [IndepAxis(ax), DerivAxis(ax)] + tail))
  {
    var dims := done + [ax] + tail;
    assert dims[|done|] == ax;
    assert dims[..|done|] == done;
    assert dims[|done| + 1..] == tail;
    assert IndexOf(dims, ax).value == |done|;
  }

  /** `Expanded` works axis by axis, from the front. */
  lemma ExpandedCons(ax: Axis, tail: seq<Axis>)
    ensures Expanded([ax] + tail)
            == (if ax.Diag? then [IndepAxis(ax), DerivAxis(ax)] else [ax]) + Expanded(tail)
  {
    assert ([ax] + tail)[1..] == tail;
  }

  /**
   * Expanding the diagonal axes of `rest`, after a prefix `done` with no
   * diagonal axis, expands `rest` in place.
   */
  lemma {:induction false} ExpandAfter(done: seq<Axis>, rest: seq<Axis>)
    requires forall k | 0 <= k < |done| :: !done[k].Diag?
    ensures ExpandEach(LayoutOf(done + rest), DiagAxes(rest)) == Ok(LayoutOf(done + Expanded(rest)))
    decreases |rest|
  {
    if |rest| == 0 {
      assert done + rest == done;
      assert done + Expanded(rest) == done;
    } else {
      var ax, tail := rest[0], rest[1..];
      assert rest == [ax] + tail;
      ExpandedCons(ax, tail);
      var piece := if ax.Diag? then [IndepAxis(ax), DerivAxis(ax)] else [ax];
      assert Expanded(rest) == piece + Expanded(tail);
      var next := done + piece;
      assert forall k | 0 <= k < |next| :: !next[k].Diag?;
      ExpandAfter(next, tail);
      SeqAssoc(done, piece, Expanded(tail));
      if ax.Diag? {
        StepDiag(done, ax, tail);
      } else {
        StepOther(done, ax, tail);
      }
    }
  }

  lemma SeqAssoc<T>(a: seq<T>, b: seq<T>, c: seq<T>)
    ensures (a + b) + c == a + (b + c)
  {
  }

  /** `DiagAxes` works axis by axis, from the front. */
  lemma DiagAxesCons(ax: Axis, tail: seq<Axis>)
    ensures DiagAxes([ax] + tail) == (if ax.Diag? then [ax] else []) + DiagAxes(tail)
  {
    assert ([ax] + tail)[1..] == tail;
  }

  /** `ExpandEach` expands the first axis, then the rest from there. */
  lemma ExpandEachCons(x: Layout, ax: Axis, rest: seq<Axis>)
    requires Valid(x) && ExpandDiagonal(x, ax).Ok?
    ensures ExpandEach(x, [ax] + rest) == ExpandEach(ExpandDiagonal(x, ax).value, rest)
  {
    assert ([ax] + rest)[1..] == rest;
  }

  /** One step of `ExpandAfter` for a diagonal axis: it is expanded into the prefix. */
  lemma StepDiag(done: seq<Axis>, ax: Axis, tail: seq<Axis>)
    requires forall k | 0 <= k < |done| :: !done[k].Diag?
    requires ax.Diag?
    ensures ExpandEach(LayoutOf(done + ([ax] + tail)), DiagAxes([ax] + tail))
            == ExpandEach(LayoutOf(done + [IndepAxis(ax), DerivAxis(ax)] + tail), DiagAxes(tail))
  {
    DiagAxesCons(ax, tail);
    SeqAssoc(done, [ax], tail);
    ExpandFirst(done, ax, tail);
    ExpandEachCons(LayoutOf(done + [ax] + tail), ax, DiagAxes(tail));
  }

  /** One step of `ExpandAfter` for any other axis: it moves into the prefix as it is. */
  lemma StepOther(done: seq<Axis>, ax: Axis, tail: seq<Axis>)
    requires !ax.Diag?
    ensures ExpandEach(LayoutOf(done + ([ax] + tail)), DiagAxes([ax] + tail))
            == ExpandEach(LayoutOf(done + [ax] + tail), DiagAxes(tail))
  {
    DiagAxesCons(ax, tail);
    SeqAssoc(done, [ax], tail);
    assert [] + DiagAxes(tail) == DiagAxes(tail);
  }

  /** Expanding every diagonal axis, in order, gives the reference expansion. */
  lemma ExpandAllSpec(dims: seq<Axis>)
    ensures ExpandEach(LayoutOf(dims), DiagAxes(dims)) == Ok(LayoutOf(Expanded(dims)))
  {
    var none: seq<Axis> := [];
    EmptyPrefix(none, dims);
    EmptyPrefix(none, Expanded(dims));
    ExpandAfter(none, dims);
  }

  lemma EmptyPrefix<T>(none: seq<T>, s: seq<T>)
    requires none == []
    ensures none + s == s
  {
  }

  /**
   * `expand_diagonals`: expands the axes of `diags`, or every diagonal
   * axis of `x` when `diags` is absent, one after the other.
   */
  method ExpandDiagonals(x: Layout, diags: Option<seq<Axis>>) returns (r: Result<Layout>)
    requires Valid(x)
    ensures diags.Some? ==> r == ExpandEach(x, diags.value)
    ensures diags.None? && x.dims.None? ==> r == Err(AttributeError)
    ensures diags.None? && x.dims.Some? ==> r == Ok(LayoutOf(Expanded(x.dims.value)))
  {
    var list: seq<Axis>;
    if diags.None? {
      if x.dims.None? {
        return Err(AttributeError);
      }
      list := DiagAxes(x.dims.value);
      ExpandAllSpec(x.dims.value);
      assert x == LayoutOf(x.dims.value);
    } else {
      list := diags.value;
    }
    var out := x;
    for k := 0 to |list|
      invariant Valid(out)
      invariant ExpandEach(x, list) == ExpandEach(out, list[k..])
    {
      assert list[k..][1..] == list[k + 1..];
      var step := ExpandDiagonal(out, list[k]);
      if step.Err? {
        return Err(step.error);
      }
      out := step.value;
    }
    assert list[|list|..] == [];
    return Ok(out);
  }

  // ---------------------------------------------------------------------
  // Complex scalars as 2×2 real blocks
  // ---------------------------------------------------------------------

  datatype Complex = Complex(re: real, im: real)

  function CMul(z: Complex, w: Complex): Complex {
    Complex(z.re * w.re - z.im * w.im, z.re * w.im + z.im * w.re)
  }

  /**
   * An array: its layout, whether its element type is complex, and its
   * elements in C order. The elements of a real array have zero imaginary
   * part.
   */
  datatype HfArray = HfArray(layout: Layout, isComplex: bool, data: seq<Complex>)

  /** Entry (row, col) of the 2×2 block that stands for `z`. */
  function Packed(z: Complex, isComplex: bool, row: nat, col: nat): real
    requires row < 2 && col < 2
  {
    if isComplex then
      if row == col then z.re else if row == 0 then -z.im else z.im
    else if row == 0 && col == 0 then z.re else 0.0
  }

  /** Offset of entry (row, col) of block `t` when every element gets a trailing 2×2 block. */
  function BlockOffset(t: nat, row: nat, col: nat): (r: nat)
    requires row < 2 && col < 2
    ensures 4 * t <= r < 4 * t + 4
  {
    4 * t + 2 * row + col
  }

  /** The first column of a block gives the scalar back. */
  lemma PackedRoundTrip(z: Complex, isComplex: bool)
    requires !isComplex ==> z.im == 0.0
    ensures Complex(Packed(z, isComplex, 0, 0), Packed(z, isComplex, 1, 0)) == z
  {
  }

  /** Product of two complex blocks, entry (row, col). */
  function BlockProductEntry(z: Complex, w: Complex, row: nat, col: nat): real
    requires row < 2 && col < 2
  {
    Packed(z, true, row, 0) * Packed(w, true, 0, col) + Packed(z, true, row, 1) * Packed(w, true, 1, col)
  }

  /** The block of a product of complex numbers is the product of their blocks. */
  lemma BlockProduct(z: Complex, w: Complex, row: nat, col: nat)
    requires row < 2 && col < 2
    ensures BlockProductEntry(z, w, row, col) == Packed(CMul(z, w), true, row, col)
  {
    if row == 0 && col == 1 {
      assert -z.im * w.re == -(z.im * w.re);
      assert z.re * -w.im == -(z.re * w.im);
    } else if row == 1 && col == 1 {
      assert z.im * -w.im == -(z.im * w.im);
    } else if row == 0 && col == 0 {
      assert -z.im * w.im == -(z.im * w.im);
    }
  }

  /** The axis list of the result of `make_fullcomplex_array` when it packs. */
  function PackedDims(dims: Option<seq<Axis>>): (r: seq<Axis>)
    ensures HasComplex(r)
    ensures dims.Some? ==> |r| == |dims.value| + 2 && r[..|dims.value|] == dims.value && r[|dims.value|..] == Cplx
    ensures dims.None? ==> r == Cplx
  {
    var r := if dims.Some? then dims.value + Cplx else Cplx;
    assert IsComplex(r[|r| - 2]);
    r
  }

  /**
   * `make_fullcomplex_array`: an array that already has a complex axis is
   * returned as it is; any other array gets a trailing 2×2 block per
   * element ([[re, -im], [im, re]] for a complex array, [[x, 0], [0, 0]] for
   * a real one), the two `cplx` axes, and a real element type.
   */
  method MakeFullComplex(a: HfArray) returns (r: HfArray)
    ensures IsFullComplex(r.layout)
    ensures IsFullComplex(a.layout) ==> r == a
    ensures !IsFullComplex(a.layout) ==>
              r.layout == Layout(Some(PackedDims(a.layout.dims)), a.layout.shape + [2, 2]) &&
              !r.isComplex && |r.data| == 4 * |a.data|
    ensures !IsFullComplex(a.layout) ==>
              forall t, row, col | 0 <= t < |a.data| && 0 <= row < 2 && 0 <= col < 2 ::
                r.data[BlockOffset(t, row, col)] == Complex(Packed(a.data[t], a.isComplex, row, col), 0.0)
  {
    if IsFullComplex(a.layout) {
      return a;
    }
    var n := |a.data|;
    var out := new real[4 * n](_ => 0.0);
    for t := 0 to n
      invariant forall s, row, col | 0 <= s < n && 0 <= row < 2 && 0 <= col < 2 ::
                  out[BlockOffset(s, row, col)] == if s < t then Packed(a.data[s], a.isComplex, row, col) else 0.0
    {
      var z := a.data[t];
      if a.isComplex {
        out[BlockOffset(t, 0, 0)] := z.re;
        out[BlockOffset(t, 1, 1)] := z.re;
        out[BlockOffset(t, 0, 1)] := -z.im;
        out[BlockOffset(t, 1, 0)] := z.im;
      } else {
        out[BlockOffset(t, 0, 0)] := z.re;
      }
    }
    var dims := PackedDims(a.layout.dims);
    r := HfArray(Layout(Some(dims), a.layout.shape + [2, 2]), false, seq(4 * n, i requires 0 <= i < 4 * n reads out => Complex(out[i], 0.0)));
  }
}
