/**
 * The named-axis ("Dim") identity model of hftools/dataset/dim.py.
 *
 * A Dim is an immutable value: every field is set once by the constructor,
 * and indexing, equality, ordering and hashing build new values. The class
 * hierarchy of the source (DimBase and its subclasses) is the tag `cls`; the
 * extra field of DimDepends, `index`, is `Some` exactly for that class.
 */
module Dims {
  import opened Wrappers

  // ---------------------------------------------------------------------
  // Stored coordinates
  // ---------------------------------------------------------------------

  /** A coordinate stored in a Dim's `_data` tuple, tagged by its Python kind. */
  datatype Elem = Int(i: int) | Float(x: real) | Text(s: string) | Time(us: int)

  /** The `is_integer` helper the default output format asks. */
  predicate IsInteger(e: Elem) { e.Int? }

  /** The `is_numlike` helper the default output format asks. */
  predicate IsNumlike(e: Elem) { e.Int? || e.Float? }

  function Numeric(e: Elem): real
    requires IsNumlike(e)
  {
    if e.Int? then e.i as real else e.x
  }

  /** Python `==` on two coordinates: an int and a float are equal when their values are. */
  predicate ElemEq(a: Elem, b: Elem) {
    if IsNumlike(a) && IsNumlike(b) then Numeric(a) == Numeric(b)
    else a == b
  }

  /** Python `<` on two strings: code points, lexicographically. */
  predicate LexLess(a: string, b: string) {
    if a == [] || b == [] then |a| < |b|
    else if a[0] == b[0] then LexLess(a[1..], b[1..])
    else a[0] < b[0]
  }

  /** Python 3 `<` on two coordinates; mixed kinds are unorderable. */
  function ElemLess(a: Elem, b: Elem): Result<bool> {
    if IsNumlike(a) && IsNumlike(b) then Ok(Numeric(a) < Numeric(b))
    else if a.Text? && b.Text? then Ok(LexLess(a.s, b.s))
    else if a.Time? && b.Time? then Ok(a.us < b.us)
    else Err(TypeError)
  }

  // ---------------------------------------------------------------------
  // flatten
  // ---------------------------------------------------------------------

  /** Constructor data as Python sees it: a leaf, or a list or tuple of further data. */
  datatype Nested = Leaf(e: Elem) | Group(items: seq<Nested>)

  /** `e` occurs as a leaf somewhere inside `items`. */
  predicate HasLeaf(items: seq<Nested>, e: Elem)
    decreases items
  {
    exists k | 0 <= k < |items| ::
      if items[k].Leaf? then items[k].e == e else HasLeaf(items[k].items, e)
  }

  /** The leaves of nested data, depth first and left to right (the generator `flatten`). */
  function Flatten(items: seq<Nested>): (r: seq<Elem>)
    decreases items
    ensures forall e :: e in r <==> HasLeaf(items, e)
  {
    if items == [] then []
    else
      var rest := Flatten(items[1..]);
      assert forall e :: HasLeaf(items, e) <==>
        (if items[0].Leaf? then items[0].e == e else HasLeaf(items[0].items, e)) || HasLeaf(items[1..], e)
      by {
        forall e ensures HasLeaf(items, e) ==>
          (if items[0].Leaf? then items[0].e == e else HasLeaf(items[0].items, e)) || HasLeaf(items[1..], e)
        {
          if HasLeaf(items, e) {
            var k :| 0 <= k < |items| &&
              (if items[k].Leaf? then items[k].e == e else HasLeaf(items[k].items, e));
            if k > 0 { assert items[1..][k - 1] == items[k]; }
          }
        }
        forall e | HasLeaf(items[1..], e) ensures HasLeaf(items, e) {
          var k :| 0 <= k < |items[1..]| &&
            (if items[1..][k].Leaf? then items[1..][k].e == e else HasLeaf(items[1..][k].items, e));
          assert items[k + 1] == items[1..][k];
        }
      }
      match items[0]
      case Leaf(x) => [x] + rest
      case Group(sub) => Flatten(sub) + rest
  }

  /** Flat data written as a list of leaves. */
  function Leaves(es: seq<Elem>): (r: seq<Nested>)
    ensures |r| == |es|
  {
    seq(|es|, k requires 0 <= k < |es| => Leaf(es[k]))
  }

  /** `flatten` distributes over concatenation: the order is left to right. */
  lemma {:induction false} FlattenAppend(a: seq<Nested>, b: seq<Nested>)
    ensures Flatten(a + b) == Flatten(a) + Flatten(b)
    decreases |a|
  {
    if a == [] {
      assert a + b == b;
    } else {
      assert (a + b)[0] == a[0];
      assert (a + b)[1..] == a[1..] + b;
      FlattenAppend(a[1..], b);
    }
  }

  /** Data that is already flat comes back unchanged, so `flatten` is idempotent. */
  lemma {:induction false} FlattenLeaves(es: seq<Elem>)
    ensures Flatten(Leaves(es)) == es
    decreases |es|
  {
    if es != [] {
      assert Leaves(es)[1..] == Leaves(es[1..]);
      FlattenLeaves(es[1..]);
    }
  }

  /** The worked example: `[[1, 2], [3, [4, 5]]]` flattens to `(1, 2, 3, 4, 5)`. */
  lemma FlattenExample()
    ensures Flatten([Group([Leaf(Int(1)), Leaf(Int(2))]),
                     Group([Leaf(Int(3)), Group([Leaf(Int(4)), Leaf(Int(5))])])])
         == [Int(1), Int(2), Int(3), Int(4), Int(5)]
  {
    var inner := [Leaf(Int(4)), Leaf(Int(5))];
    var second := [Leaf(Int(3)), Group(inner)];
    FlattenLeaves([Int(4), Int(5)]);
    assert Leaves([Int(4), Int(5)]) == inner;
    assert Flatten(second) == [Int(3)] + Flatten(second[1..]);
    assert second[1..] == [Group(inner)];
    FlattenLeaves([Int(1), Int(2)]);
    assert Leaves([Int(1), Int(2)]) == [Leaf(Int(1)), Leaf(Int(2))];
  }

  // ---------------------------------------------------------------------
  // Dim values
  // ---------------------------------------------------------------------

  /** DimBase and its subclasses. */
  datatype DimClass =
    | Base | Anonymous | Sweep | Rep | Matrix
    | MatrixI | MatrixJ | UMatrixI | UMatrixJ | Partial | Depends

  /**
   * The class attribute `sortprio`, inherited where a subclass does not set
   * it: the plain classes first, then DimRep, then the matrix classes.
   */
  function SortPrio(c: DimClass): (r: nat)
    ensures r == 0 <==> c in {Base, Anonymous, Sweep, Partial, Depends}
    ensures c == Rep <==> r == 1
    ensures r >= 1000 <==> c in {Matrix, MatrixI, MatrixJ, UMatrixI, UMatrixJ}
    ensures c == Matrix || c == UMatrixI ==> r == 1000
    ensures c == UMatrixJ ==> r == 1001
    ensures c == MatrixI ==> r == 1010
    ensures c == MatrixJ ==> r == 1011
  {
    match c
    case Rep => 1
    case Matrix => 1000
    case MatrixI => 1010
    case MatrixJ => 1011
    case UMatrixI => 1000
    case UMatrixJ => 1001
    case _ => 0
  }

  /** The identity of the uncertainty object attached through `unc`. */
  type UncRef = nat

  /**
   * The stored state of a Dim: `_data`, `_name`, `_unit`, `_outputformat`,
   * `_unc`, and the `index` of a DimDepends.
   */
  datatype Dim = Dim(
    cls: DimClass,
    name: string,
    data: seq<Elem>,
    unit: Option<string>,
    format: Option<string>,
    unc: Option<UncRef>,
    index: Option<int>)

  /** The `outputformat` property: the explicit format, or one chosen from the first coordinate. */
  function OutputFormat(d: Dim): (r: Result<string>)
    ensures r.Err? <==> d.format.None? && d.data == []
    ensures r.Err? ==> r.error == IndexError
    ensures r.Ok? ==> Some(r.value) == d.format || (d.format.None? && r.value in {"%d", "%.16e", "%s"})
  {
    if d.format.Some? then Ok(d.format.value)
    else if d.data == [] then Err(IndexError)
    else if IsInteger(d.data[0]) then Ok("%d")
    else if IsNumlike(d.data[0]) then Ok("%.16e")
    else Ok("%s")
  }

  /**
   * An explicit format is kept; otherwise the format is one of the three
   * defaults, `IndexError` only on empty data; and storing the resolved
   * format explicitly resolves to the same format.
   */
  lemma OutputFormatResolves(d: Dim)
    ensures d.format.Some? ==> OutputFormat(d) == Ok(d.format.value)
    ensures d.format.None? ==> (OutputFormat(d).Err? <==> d.data == [])
    ensures d.format.None? && d.data != [] ==>
              OutputFormat(d) == Ok(if d.data[0].Int? then "%d" else if d.data[0].Float? then "%.16e" else "%s")
    ensures OutputFormat(d).Ok? ==> OutputFormat(d.(format := Some(OutputFormat(d).value))) == OutputFormat(d)
  {
  }

  // ---------------------------------------------------------------------
  // Construction
  // ---------------------------------------------------------------------

  /** The `data` argument of the constructor. */
  datatype DataArg =
    | NoData                  // None
    | Scalar(e: Elem)         // a value that is neither a list, a tuple nor an array
    | Items(items: seq<Nested>) // a list or tuple, possibly nested
    | Array(tree: Nested)     // a numpy array, read through `tolist()`

  /** The first positional argument: a name, or an existing Dim to take defaults from. */
  datatype Primary = Named(name: string) | FromDim(base: Dim)

  /** The keyword arguments; `None` means "not given". */
  datatype Args = Args(
    data: DataArg,
    unit: Option<string>,
    name: Option<string>,
    outputformat: Option<string>,
    unc: Option<UncRef>)

  const NoArgs := Args(NoData, None, None, None, None)

  /** `list(range(n))` as coordinates. */
  function Range(n: int): (r: seq<Elem>)
    ensures |r| == if n > 0 then n else 0
    ensures forall k | 0 <= k < |r| :: r[k] == Int(k)
  {
    seq(if n > 0 then n else 0, k => Int(k))
  }

  /** The normalisation of lines 58-66: expand an int, unwrap an array, iterate, flatten. */
  function StoredData(arg: DataArg): (r: Result<seq<Elem>>)
    ensures r.Err? <==> arg.NoData? || (arg.Scalar? && !arg.e.Int? && !arg.e.Text?)
    ensures r.Err? ==> r.error == TypeError
    ensures arg.Scalar? && arg.e.Int? ==> r == Ok(Range(arg.e.i))
    ensures arg.Scalar? && arg.e.Text? ==>
              (r.Ok? && |r.value| == |arg.e.s| &&
               forall k | 0 <= k < |r.value| :: r.value[k] == Text([arg.e.s[k]]))
    ensures arg.Items? ==> r == Ok(Flatten(arg.items))
    ensures arg.Array? ==> r == Ok(Flatten([arg.tree]))
  {
    match arg
    case NoData => Err(TypeError)
    case Scalar(e) =>
      if e.Int? then FlattenLeaves(Range(e.i)); Ok(Flatten(Leaves(Range(e.i))))
      else if e.Text? then Ok(seq(|e.s|, k requires 0 <= k < |e.s| => Text([e.s[k]])))
      else Err(TypeError)
    case Items(items) => Ok(Flatten(items))
    case Array(tree) => Ok(Flatten([tree]))
  }

  function PrimaryName(p: Primary): string {
    match p
    case Named(n) => n
    case FromDim(b) => b.name
  }

  /** `DimBase.__init__` for class `cls`: defaults from the primary argument, then overrides. */
  function Init(cls: DimClass, primary: Primary, args: Args): (r: Result<Dim>)
    ensures r.Ok? ==> r.value.cls == cls && r.value.unc == args.unc && r.value.index.None?
    ensures primary.FromDim? && OutputFormat(primary.base).Err? ==> r.Err?
    ensures r.Ok? && primary.FromDim? ==>
      (args.unit.None? ==> r.value.unit == primary.base.unit) &&
      (args.data.NoData? ==> r.value.data == primary.base.data) &&
      (args.outputformat.None? ==> r.value.format == Some(OutputFormat(primary.base).value))
    ensures r.Ok? && primary.Named? ==> r.value.unit == args.unit && r.value.format == args.outputformat
    ensures r.Ok? <==> (primary.FromDim? ==> OutputFormat(primary.base).Ok?) &&
                       ((primary.Named? || !args.data.NoData?) ==> StoredData(args.data).Ok?)
  {
    match primary
    case FromDim(b) =>
      var fmt :- OutputFormat(b);
      var data :- if args.data.NoData? then Ok(b.data) else StoredData(args.data);
      Ok(Dim(cls, args.name.GetOr(b.name), data,
             if args.unit.Some? then args.unit else b.unit,
             Some(args.outputformat.GetOr(fmt)), args.unc, None))
    case Named(n) =>
      var data :- StoredData(args.data);
      Ok(Dim(cls, args.name.GetOr(n), data, args.unit, args.outputformat, args.unc, None))
  }

  /** `DimDepends.__init__`: the base constructor, then the index. */
  function NewDepends(primary: Primary, args: Args, index: Option<int>): (r: Result<Dim>)
    ensures r.Ok? ==> r.value.cls == Depends
    ensures r.Ok? ==>
      r.value.index == Some(if primary.FromDim? && primary.base.cls == Depends && index.Some? then index.value else 1)
    ensures r.Ok? <==> Init(Depends, primary, args).Ok?
  {
    var d :- Init(Depends, primary, args);
    Ok(d.(index := Some(if primary.FromDim? && primary.base.cls == Depends && index.Some?
                        then index.value else 1)))
  }

  /** `cls(primary, **args)` for any class, as `self.__class__(...)` does. */
  function Construct(cls: DimClass, primary: Primary, args: Args): Result<Dim> {
    if cls == Depends then NewDepends(primary, args, None) else Init(cls, primary, args)
  }

  /** Integer data `n` is stored as the coordinates `0, 1, ..., n - 1`. */
  lemma IntegerDataIsRange(cls: DimClass, name: string, n: int)
    ensures var r := Init(cls, Named(name), NoArgs.(data := Scalar(Int(n))));
      r.Ok? && r.value.data == Range(n) && r.value.name == name
  {
    FlattenLeaves(Range(n));
  }

  /**
   * Building from an existing Dim takes its name, data, unit and resolved
   * format; it fails exactly when that format cannot be resolved; a copy of
   * the same class compares equal to its base; `unc` is never inherited.
   */
  lemma InheritsFromBase(cls: DimClass, b: Dim)
    ensures var r := Init(cls, FromDim(b), NoArgs);
      (r.Ok? <==> OutputFormat(b).Ok?) &&
      (r.Ok? ==> r.value.name == b.name && r.value.data == b.data && r.value.unit == b.unit &&
                 r.value.format == Some(OutputFormat(b).value) && r.value.unc.None? &&
                 OutputFormat(r.value) == OutputFormat(b) && (cls == b.cls ==> Equal(r.value, AsDim(b))))
  {
    var r := Init(cls, FromDim(b), NoArgs);
    if r.Ok? { DataEqReflexive(b.data); }
  }

  /** Every explicit, non-None argument overrides the default taken from the primary argument. */
  lemma ExplicitArgumentsWin(cls: DimClass, primary: Primary, args: Args)
    ensures var r := Init(cls, primary, args);
      r.Ok? ==>
        (args.name.Some? ==> r.value.name == args.name.value) &&
        (args.name.None? ==> r.value.name == PrimaryName(primary)) &&
        (args.unit.Some? ==> r.value.unit == args.unit) &&
        (args.outputformat.Some? ==> r.value.format == args.outputformat) &&
        (!args.data.NoData? ==> Ok(r.value.data) == StoredData(args.data)) &&
        r.value.unc == args.unc
  {
  }

  /**
   * `next_uncertainty_dim`: the same name, data and unit with the index
   * incremented. It fails exactly when the format cannot be resolved, and
   * the index takes no part in equality, so the result compares equal.
   */
  function NextUncertaintyDim(d: Dim): (r: Result<Dim>)
    requires d.cls == Depends && d.index.Some?
    ensures r.Ok? <==> OutputFormat(d).Ok?
    ensures r.Ok? ==> r.value.cls == Depends && r.value.index == Some(d.index.value + 1) &&
                      r.value.name == d.name && r.value.data == d.data && r.value.unit == d.unit &&
                      r.value.unc.None? && OutputFormat(r.value) == OutputFormat(d)
    ensures r.Ok? ==> Equal(r.value, AsDim(d)) && HashKeyOf(r.value) == HashKeyOf(d.(format := r.value.format))
  {
    DataEqReflexive(d.data);
    NewDepends(FromDim(d), NoArgs, Some(d.index.value + 1))
  }

  // ---------------------------------------------------------------------
  // Indexing
  // ---------------------------------------------------------------------

  /** The key given to `__getitem__`. */
  datatype Index =
    | Slice(start: Option<int>, stop: Option<int>, step: Option<int>)
    | Take(positions: seq<int>)  // an integer array
    | Mask(keep: seq<bool>)      // a boolean array
    | Position(i: int)           // an integer, or any other key

  const FullSlice := Slice(None, None, None)

  /** Python's adjustment of one slice bound against a length `n`. */
  function Clamp(v: int, n: nat, step: int): int {
    if v < 0 then (if v + n < 0 then (if step < 0 then -1 else 0) else v + n)
    else if v >= n then (if step < 0 then n - 1 else n)
    else v
  }

  /** The positions `i, i + step, ...` strictly before `stop`. */
  function Walk(i: int, stop: int, step: int, n: nat): (r: seq<nat>)
    requires step != 0
    requires step > 0 ==> 0 <= i && stop <= n
    requires step < 0 ==> -1 <= stop && i < n
    decreases if step > 0 then stop - i else i - stop
    ensures forall k | 0 <= k < |r| :: r[k] < n
  {
    if step > 0 && i < stop then [i] + Walk(i + step, stop, step, n)
    else if step < 0 && i > stop then [i] + Walk(i + step, stop, step, n)
    else []
  }

  /** The positions a slice selects from a sequence of length `n`. */
  function SliceIndices(n: nat, start: Option<int>, stop: Option<int>, step: Option<int>): (r: Result<seq<nat>>)
    ensures r.Err? <==> step == Some(0)
    ensures r.Ok? ==> forall k | 0 <= k < |r.value| :: r.value[k] < n
  {
    var s := step.GetOr(1);
    if s == 0 then Err(ValueError)
    else
      var lo := if start.None? then (if s > 0 then 0 else n - 1) else Clamp(start.value, n, s);
      var hi := if stop.None? then (if s > 0 then n else -1) else Clamp(stop.value, n, s);
      Ok(Walk(lo, hi, s, n))
  }

  /** Boolean-mask selection. */
  function Masked(data: seq<Elem>, keep: seq<bool>): seq<Elem>
    requires |keep| == |data|
  {
    if data == [] then []
    else (if keep[0] then [data[0]] else []) + Masked(data[1..], keep[1..])
  }

  /** numpy's `self.data[index]` for the supported index kinds. */
  function Select(data: seq<Elem>, idx: Index): Result<seq<Elem>>
    requires !idx.Position?
  {
    match idx
    case Slice(start, stop, step) =>
      var pos :- SliceIndices(|data|, start, stop, step);
      Ok(seq(|pos|, k requires 0 <= k < |pos| => data[pos[k]]))
    case Take(ps) =>
      if forall k | 0 <= k < |ps| :: -|data| <= ps[k] < |data| then
        Ok(seq(|ps|, k requires 0 <= k < |ps| && -|data| <= ps[k] < |data| =>
                       data[if ps[k] < 0 then ps[k] + |data| else ps[k]]))
      else Err(IndexError)
    case Mask(keep) =>
      if |keep| == |data| then Ok(Masked(data, keep)) else Err(IndexError)
  }

  /**
   * `__getitem__`: the full slice gives back the Dim itself; another slice or
   * an array builds a Dim of the same class over the selected coordinates,
   * keeping name and unit, fixing the resolved format and dropping `unc`;
   * any other key raises IndexError.
   */
  function GetItem(d: Dim, idx: Index): (r: Result<Dim>)
    ensures idx == FullSlice ==> r == Ok(d)
    ensures idx.Position? ==> r == Err(IndexError)
    ensures idx != FullSlice && !idx.Position? ==>
      (r.Ok? <==> Select(d.data, idx).Ok? && OutputFormat(d).Ok?)
    ensures idx != FullSlice && r.Ok? ==>
      r.value.cls == d.cls && r.value.name == d.name && r.value.unit == d.unit &&
      r.value.unc.None? && Select(d.data, idx) == Ok(r.value.data) &&
      r.value.format == Some(OutputFormat(d).value) &&
      (d.cls == Depends ==> r.value.index == Some(1))
  {
    if idx == FullSlice then Ok(d)
    else if idx.Position? then Err(IndexError)
    else match Select(d.data, idx)
      case Err(e) => Err(e)
      case Ok(data) =>
        match OutputFormat(d)
        case Err(e) => Err(e)
        case Ok(fmt) =>
          FlattenLeaves(data);
          assert Flatten([Group(Leaves(data))]) == data by {
            assert [Group(Leaves(data))][1..] == [];
          }
          Construct(d.cls, Named(d.name), Args(Array(Group(Leaves(data))), d.unit, None, Some(fmt), None))
  }

  /** A unit-step slice `d[a:b]` selects the contiguous coordinates `a .. b - 1`. */
  lemma {:induction false} UnitStepWalk(i: int, stop: int, n: nat)
    requires 0 <= i <= stop <= n
    ensures Walk(i, stop, 1, n) == seq(stop - i, k => i + k)
    decreases stop - i
  {
    if i < stop {
      UnitStepWalk(i + 1, stop, n);
    }
  }

  /**
   * A positive step `s` from `i` visits `i, i + s, i + 2s, ...` before `stop`:
   * `ceil((stop - i) / s)` positions, none when `stop <= i`.
   */
  lemma {:induction false} ForwardWalk(i: int, stop: int, s: int, n: nat)
    requires s > 0 && 0 <= i && stop <= n
    ensures Walk(i, stop, s, n) == seq(WalkCount(i, stop, s), k => i + k * s)
    decreases stop - i
  {
    if i < stop {
      ForwardWalk(i + s, stop, s, n);
      WalkCountStep(i, stop, s);
      var tail := Walk(i + s, stop, s, n);
      forall k | 0 <= k < |tail|
        ensures tail[k] == i + (k + 1) * s
      {
        assert (k + 1) * s == k * s + s;
      }
    }
  }

  /** The number of positions a positive-step walk visits. */
  function WalkCount(i: int, stop: int, s: int): (r: nat)
    requires s > 0
    ensures r > 0 <==> i < stop
  {
    if stop > i then (stop - i + s - 1) / s else 0
  }

  lemma WalkCountStep(i: int, stop: int, s: int)
    requires s > 0 && i < stop
    ensures WalkCount(i, stop, s) == WalkCount(i + s, stop, s) + 1
  {
    var x := stop - i - 1;
    DivShift(x, s);
    if stop <= i + s {
      assert 0 <= x < s;
    }
  }

  lemma DivShift(x: nat, s: int)
    requires s > 0
    ensures (x + s) / s == x / s + 1
  {
    var q, m := x / s, x % s;
    assert x + s == (q + 1) * s + m;
    DivUnique(x + s, s, q + 1, m);
  }

  /** Euclidean division is determined by its quotient-remainder decomposition. */
  lemma DivUnique(a: int, s: int, q: int, m: int)
    requires s > 0 && 0 <= m < s && a == q * s + m
    ensures a / s == q
  {
    var d := a / s - q;
    assert d * s == m - a % s;
    if d >= 1 {
      assert false;
    } else if d <= -1 {
      assert false;
    }
  }

  /**
   * A negative step `s` from `i` visits `i, i + s, i + 2s, ...` down to just
   * above `stop`: `ceil((i - stop) / -s)` positions, none when `i <= stop`.
   */
  lemma {:induction false} BackwardWalk(i: int, stop: int, s: int, n: nat)
    requires s < 0 && -1 <= stop && i < n
    ensures Walk(i, stop, s, n) == seq(WalkCount(stop, i, -s), k => i + k * s)
    decreases i - stop
  {
    if i > stop {
      BackwardWalk(i + s, stop, s, n);
      WalkCountStep(stop, i, -s);
      assert WalkCount(stop - s, i, -s) == WalkCount(stop, i + s, -s);
      var tail := Walk(i + s, stop, s, n);
      forall k | 0 <= k < |tail|
        ensures tail[k] == i + (k + 1) * s
      {
        assert (k + 1) * s == k * s + s;
      }
    }
  }

  /** `d[::s]` with a negative step selects every `-s`-th coordinate from the last one down. */
  lemma SteppedReverseSlice(d: Dim, s: int)
    requires s < 0
    ensures var n := |d.data|;
      var r := Select(d.data, Slice(None, None, Some(s)));
      r.Ok? && |r.value| == WalkCount(-1, n - 1, -s) &&
      forall k | 0 <= k < |r.value| :: 0 <= n - 1 + k * s && r.value[k] == d.data[n - 1 + k * s]
  {
    var n := |d.data|;
    BackwardWalk(n - 1, -1, s, n);
    var pos := Walk(n - 1, -1, s, n);
    assert SliceIndices(n, None, None, Some(s)) == Ok(pos);
    var sel := seq(|pos|, k requires 0 <= k < |pos| => d.data[pos[k]]);
    assert Select(d.data, Slice(None, None, Some(s))) == Ok(sel);
    forall k | 0 <= k < |sel|
      ensures 0 <= n - 1 + k * s && sel[k] == d.data[n - 1 + k * s]
    {
      assert pos[k] == n - 1 + k * s;
    }
  }

  /** `d[a:b:s]` with in-range bounds and a positive step selects every `s`-th coordinate from `a`. */
  lemma SteppedSlice(d: Dim, a: nat, b: nat, s: int)
    requires a <= b <= |d.data| && s > 0
    ensures var r := Select(d.data, Slice(Some(a), Some(b), Some(s)));
      r.Ok? && |r.value| == WalkCount(a, b, s) &&
      forall k | 0 <= k < |r.value| :: a + k * s < b && r.value[k] == d.data[a + k * s]
  {
    var n := |d.data|;
    assert Clamp(a, n, s) == a && Clamp(b, n, s) == b;
    ForwardWalk(a, b, s, n);
    var pos := Walk(a, b, s, n);
    assert SliceIndices(n, Some(a), Some(b), Some(s)) == Ok(pos);
    forall k | 0 <= k < |pos| ensures a + k * s < b {
      WalkBelowStop(a, b, s, n, k);
    }
  }

  lemma {:induction false} WalkBelowStop(i: int, stop: int, s: int, n: nat, k: nat)
    requires s > 0 && 0 <= i && stop <= n && k < |Walk(i, stop, s, n)|
    ensures Walk(i, stop, s, n)[k] < stop
    decreases stop - i
  {
    if k > 0 {
      WalkBelowStop(i + s, stop, s, n, k - 1);
    }
  }

  /** Slicing with explicit in-range bounds and no step yields the subsequence. */
  lemma UnitStepSlice(d: Dim, a: nat, b: nat)
    requires a <= b <= |d.data|
    ensures Select(d.data, Slice(Some(a), Some(b), None)) == Ok(d.data[a..b])
  {
    var n := |d.data|;
    assert Clamp(a, n, 1) == a && Clamp(b, n, 1) == b;
    UnitStepWalk(a, b, n);
    var pos := Walk(a, b, 1, n);
    assert SliceIndices(n, Some(a), Some(b), None) == Ok(pos);
    var sel := seq(|pos|, k requires 0 <= k < |pos| => d.data[pos[k]]);
    assert sel == d.data[a..b];
  }

  /** A reversed walk over the whole range visits `n - 1, ..., 0`. */
  lemma {:induction false} ReverseWalk(i: int, n: nat)
    requires -1 <= i < n
    ensures Walk(i, -1, -1, n) == seq(i + 1, k => i - k)
    decreases i + 1
  {
    if i > -1 {
      ReverseWalk(i - 1, n);
    }
  }

  /** `d[::-1]` holds the coordinates in reverse order. */
  lemma ReversedSlice(d: Dim)
    ensures var r := Select(d.data, Slice(None, None, Some(-1)));
      r.Ok? && |r.value| == |d.data| &&
      forall k | 0 <= k < |d.data| :: r.value[k] == d.data[|d.data| - 1 - k]
  {
    var n := |d.data|;
    ReverseWalk(n - 1, n);
    var pos := Walk(n - 1, -1, -1, n);
    assert SliceIndices(n, None, None, Some(-1)) == Ok(pos);
    var sel := seq(|pos|, k requires 0 <= k < |pos| => d.data[pos[k]]);
    assert Select(d.data, Slice(None, None, Some(-1))) == Ok(sel);
  }

  /** `d[0:]` is not the full slice: it builds a new Dim, which compares equal to `d`. */
  lemma WholeRangeSliceIsEqualCopy(d: Dim)
    requires OutputFormat(d).Ok?
    ensures var r := GetItem(d, Slice(Some(0), None, None));
      r.Ok? && r.value.data == d.data && Equal(r.value, AsDim(d)) &&
      OutputFormat(r.value) == OutputFormat(d)
  {
    UnitStepWalk(0, |d.data|, |d.data|);
    DataEqReflexive(d.data);
  }

  // ---------------------------------------------------------------------
  // Equality, ordering and hashing
  // ---------------------------------------------------------------------

  /** The right-hand operand of `==` or `<`: a Dim, or any other value. */
  datatype Operand = AsDim(d: Dim) | Raw(v: Elem)

  /** Python `==` on two `_data` tuples. */
  predicate DataEq(a: seq<Elem>, b: seq<Elem>) {
    |a| == |b| && forall k | 0 <= k < |a| :: ElemEq(a[k], b[k])
  }

  /** Python `<` on two `_data` tuples: decided at the first unequal coordinate, else by length. */
  function TupleLess(a: seq<Elem>, b: seq<Elem>): Result<bool> {
    if a == [] || b == [] then Ok(|a| < |b|)
    else if ElemEq(a[0], b[0]) then TupleLess(a[1..], b[1..])
    else ElemLess(a[0], b[0])
  }

  /** Python 3 `<` on two units; `None` is unorderable against a string. */
  function UnitLess(a: Option<string>, b: Option<string>): Result<bool> {
    if a.Some? && b.Some? then Ok(LexLess(a.value, b.value)) else Err(TypeError)
  }

  /**
   * `__eq__`. Against a Dim both key tuples take their last two slots,
   * outputformat and unc, from `self`, so only sortprio, name, class, data and
   * unit decide. Against any other value only the name is compared with it.
   */
  predicate Equal(a: Dim, other: Operand) {
    match other
    case Raw(v) => v == Text(a.name)
    case AsDim(b) =>
      SortPrio(a.cls) == SortPrio(b.cls) && a.name == b.name && a.cls == b.cls &&
      DataEq(a.data, b.data) && a.unit == b.unit
  }

  /**
   * `__lt__`: lexicographic on (sortprio, name, class, data, unit); the last
   * two slots are equal by construction. Classes that differ after a tie on
   * sortprio and name are unorderable (TypeError in Python 3). Against any
   * other value only the name is compared with it.
   */
  function Less(a: Dim, other: Operand): Result<bool> {
    match other
    case Raw(v) => if v.Text? then Ok(LexLess(a.name, v.s)) else Err(TypeError)
    case AsDim(b) =>
      if SortPrio(a.cls) != SortPrio(b.cls) then Ok(SortPrio(a.cls) < SortPrio(b.cls))
      else if a.name != b.name then Ok(LexLess(a.name, b.name))
      else if a.cls != b.cls then Err(TypeError)
      else if !DataEq(a.data, b.data) then TupleLess(a.data, b.data)
      else if a.unit != b.unit then UnitLess(a.unit, b.unit)
      else Ok(false)
  }

  /** The coordinate Python hashes: an int hashes as the float of the same value. */
  function Normalize(e: Elem): Elem {
    if e.Int? then Float(e.i as real) else e
  }

  /** The tuple `__hash__` hashes: equal keys give equal hashes. */
  datatype HashKey = HashKey(
    prio: nat, name: string, cls: DimClass, data: seq<Elem>,
    unit: Option<string>, format: Option<string>)

  /** `__hash__`, as the key it hashes. */
  function HashKeyOf(d: Dim): HashKey {
    HashKey(SortPrio(d.cls), d.name, d.cls,
            seq(|d.data|, k requires 0 <= k < |d.data| => Normalize(d.data[k])),
            d.unit, d.format)
  }

  /** The hash covers sortprio, name, class, data, unit and format; not `unc`, not the DimDepends index. */
  lemma HashIgnoresUncAndIndex(d: Dim, u: Option<UncRef>, i: Option<int>, f: Option<string>)
    ensures HashKeyOf(d.(unc := u, index := i)) == HashKeyOf(d)
    ensures HashKeyOf(d.(format := f)) == HashKeyOf(d) <==> f == d.format
  {
  }

  lemma DataEqReflexive(a: seq<Elem>)
    ensures DataEq(a, a)
  {
  }

  /** Coordinate equality is exactly equality of the hashed forms. */
  lemma {:induction false} DataEqIsNormalEquality(a: seq<Elem>, b: seq<Elem>)
    ensures DataEq(a, b) <==> HashKeyOf(Dim(Base, "", a, None, None, None, None)).data ==
                              HashKeyOf(Dim(Base, "", b, None, None, None, None)).data
  {
    var na := HashKeyOf(Dim(Base, "", a, None, None, None, None)).data;
    var nb := HashKeyOf(Dim(Base, "", b, None, None, None, None)).data;
    if DataEq(a, b) {
      assert |na| == |nb|;
      forall k | 0 <= k < |na| ensures na[k] == nb[k] {
        assert ElemEq(a[k], b[k]);
      }
    }
    if na == nb {
      assert |a| == |b|;
      forall k | 0 <= k < |a| ensures ElemEq(a[k], b[k]) {
        assert na[k] == nb[k];
      }
    }
  }

  /** `==` between Dims is an equivalence relation. */
  lemma EqualIsEquivalence(a: Dim, b: Dim, c: Dim)
    ensures Equal(a, AsDim(a))
    ensures Equal(a, AsDim(b)) ==> Equal(b, AsDim(a))
    ensures Equal(a, AsDim(b)) && Equal(b, AsDim(c)) ==> Equal(a, AsDim(c))
  {
  }

  /** Neither format, `unc` nor the DimDepends index affects `==` or `<`. */
  lemma ComparisonIgnoresFormatAndUnc(a: Dim, b: Dim, f: Option<string>, g: Option<string>,
                                      u: Option<UncRef>, v: Option<UncRef>, i: Option<int>, j: Option<int>)
    ensures Equal(a.(format := f, unc := u, index := i), AsDim(b.(format := g, unc := v, index := j)))
         == Equal(a, AsDim(b))
    ensures Less(a.(format := f, unc := u, index := i), AsDim(b.(format := g, unc := v, index := j)))
         == Less(a, AsDim(b))
  {
  }

  /** Equal Dims with the same stored format have the same hash. */
  lemma EqualSameFormatHashesAlike(a: Dim, b: Dim)
    requires Equal(a, AsDim(b)) && a.format == b.format
    ensures HashKeyOf(a) == HashKeyOf(b)
  {
    DataEqIsNormalEquality(a.data, b.data);
  }

  /**
   * A Dim rebuilt from a Dim with no explicit format compares equal to it but
   * stores the resolved format, which the hash covers: equal Dims, different
   * hashes. (With no format and no data the rebuild raises IndexError.)
   */
  lemma RebuiltDimHashesApart(d: Dim)
    requires d.format.None? && d.data != []
    ensures var r := Construct(d.cls, FromDim(d), NoArgs);
      r.Ok? && Equal(r.value, AsDim(d)) && HashKeyOf(r.value) != HashKeyOf(d)
  {
    InheritsFromBase(d.cls, d);
  }

  /** A hash key consistent with `==`: the one `__hash__` uses, without the format. */
  function ConsistentHashKey(d: Dim): HashKey {
    HashKeyOf(d.(format := None))
  }

  /** Two Dims are equal exactly when their consistent hash keys are. */
  lemma {:induction false} EqualIffConsistentKeys(a: Dim, b: Dim)
    ensures Equal(a, AsDim(b)) <==> ConsistentHashKey(a) == ConsistentHashKey(b)
  {
    DataEqIsNormalEquality(a.data, b.data);
    var ka, kb := ConsistentHashKey(a), ConsistentHashKey(b);
    assert ka.data == HashKeyOf(Dim(Base, "", a.data, None, None, None, None)).data;
    assert kb.data == HashKeyOf(Dim(Base, "", b.data, None, None, None, None)).data;
  }

  /**
   * With the consistent key, a rebuilt Dim hashes like the Dim it was built
   * from, whenever the rebuild succeeds (its format can be resolved).
   */
  lemma RebuiltDimHashesAlike(d: Dim)
    requires OutputFormat(d).Ok?
    ensures var r := Construct(d.cls, FromDim(d), NoArgs);
      r.Ok? && ConsistentHashKey(r.value) == ConsistentHashKey(d)
  {
    InheritsFromBase(d.cls, d);
    EqualIffConsistentKeys(Construct(d.cls, FromDim(d), NoArgs).value, d);
  }

  /** Against a value that is not a Dim, `==` compares the name with that value. */
  lemma EqualToRawComparesName(d: Dim, s: string)
    ensures Equal(d, Raw(Text(s))) <==> d.name == s
    ensures Less(d, Raw(Text(s))) == Ok(LexLess(d.name, s))
  {
  }

  lemma {:induction false} LexLessAsymmetric(a: string, b: string)
    ensures LexLess(a, b) ==> !LexLess(b, a)
    decreases |a|
  {
    if a != [] && b != [] && a[0] == b[0] {
      LexLessAsymmetric(a[1..], b[1..]);
    }
  }

  lemma {:induction false} TupleLessAsymmetric(a: seq<Elem>, b: seq<Elem>)
    ensures TupleLess(a, b) == Ok(true) ==> TupleLess(b, a) == Ok(false)
    decreases |a|
  {
    if a != [] && b != [] {
      if ElemEq(a[0], b[0]) {
        TupleLessAsymmetric(a[1..], b[1..]);
      } else if a[0].Text? && b[0].Text? {
        LexLessAsymmetric(a[0].s, b[0].s);
      }
    }
  }

  /** `<` between Dims is irreflexive and asymmetric, and excludes `==`. */
  lemma LessIsStrict(a: Dim, b: Dim)
    ensures Less(a, AsDim(a)) == Ok(false)
    ensures Less(a, AsDim(b)) == Ok(true) ==> Less(b, AsDim(a)) == Ok(false)
    ensures Less(a, AsDim(b)) == Ok(true) ==> !Equal(a, AsDim(b))
  {
    DataEqReflexive(a.data);
    if Less(a, AsDim(b)) == Ok(true) {
      if SortPrio(a.cls) == SortPrio(b.cls) && a.name != b.name {
        LexLessAsymmetric(a.name, b.name);
      } else if SortPrio(a.cls) == SortPrio(b.cls) && a.cls == b.cls && !DataEq(a.data, b.data) {
        TupleLessAsymmetric(a.data, b.data);
        assert !DataEq(b.data, a.data);
      } else if SortPrio(a.cls) == SortPrio(b.cls) && a.cls == b.cls {
        LexLessAsymmetric(a.unit.value, b.unit.value);
      }
    }
  }

  /** The class priority dominates: matrix axes sort after repetition axes, which sort after the rest. */
  lemma PriorityDecidesOrder(a: Dim, b: Dim)
    requires SortPrio(a.cls) < SortPrio(b.cls)
    ensures Less(a, AsDim(b)) == Ok(true) && Less(b, AsDim(a)) == Ok(false)
    ensures !Equal(a, AsDim(b))
  {
  }
}
