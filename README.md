# hftools core in Dafny

A model of three parts of the hftools package for high-frequency
measurement data. The Dafny model is checked, and nothing in it is run.

- **Axis identity (`hftools/dataset/dim.py`, module `Dims`).**
  - A Dim is an immutable value: class tag, name, flattened coordinates, unit, optional output format, optional uncertainty reference and, for `DimDepends`, an index.
  - Modelled: the constructor's defaulting rules and the output-format default.
  - Also modelled: slicing (`d[:]` returns the Dim itself), `==`, `<`, the hash key and the `sortprio` table.
- **Forward-mode uncertainty algebra (`hftools/uncertainty/__init__.py`, modules `Sensitivities` and `Uncertainty`).**
  - Sensitivities are maps from source name to partial derivative.
  - `add_sens`, `multiply_sens` and negation are loops, each proved to build a reference map.
  - `UncertainValue` carries a value, its sensitivities and a reference to a heap `UncertaintyMap`, which stands for the Python dict.
  - The binary operators update the right operand's dict with the left operand's entries and share it with the result. The contracts state that mutation and sharing.
  - The product and quotient rules are proved as exact first-order identities over the reals.
- **Diagonal axes (`hftools/uncertainty/oldfromarrayobj.py`, module `Diagonal`).**
  - The shape and stride arithmetic of `diagonal_view`: descending deletion, then clamped insertion of one axis whose extent is the minimum and whose stride is the sum of the collapsed ones. It is a loop proved against a reference function.
  - Writing a vector through the diagonal view of an N×N block.
  - The axis-list splice of `_expand_diagonal` and the fold of `expand_diagonals`.
  - The 2×2 real-block packing of `make_fullcomplex_array`.

`wrappers.dfy` holds `Option`, `Result` and the Python exception kinds as error values.

## Model

| member | source | states |
|---|---|---|
| Dims.Flatten | hftools/dataset/dim.py:24-30 | an element is in the result exactly when it is a leaf somewhere in the nested input |
| Dims.FlattenAppend | hftools/dataset/dim.py:24-30 | flattening a concatenation is the concatenation of the flattenings (left-to-right order) |
| Dims.FlattenLeaves | hftools/dataset/dim.py:24-30 | flattening a list of leaves returns those leaves unchanged |
| Dims.FlattenExample | hftools/dataset/dim.py:24-30 | `[[1,2],[3,[4,5]]]` flattens to `(1,2,3,4,5)` |
| Dims.OutputFormat | hftools/dataset/dim.py:90-99 | the `outputformat` property: IndexError exactly when no format is stored and the data is empty; otherwise the stored format or one of `%d`, `%.16e`, `%s` (Dims.OutputFormatResolves picks among the three) |
| Dims.Range | hftools/dataset/dim.py:58-59 | `range(n)` has max(n,0) elements and element k is k |
| Dims.StoredData | hftools/dataset/dim.py:58-66 | the constructor's data normalisation: TypeError exactly for `None` and for a scalar that is neither an int nor a string; an int `n` gives `0..n-1`; a string gives its characters; a list, tuple or array is stored as its Dims.Flatten, so the leaf and order properties of Dims.Flatten carry over to the stored data |
| Dims.IntegerDataIsRange | hftools/dataset/dim.py:58-66 | integer data `n` is stored as `0..n-1` and the name is kept |
| Dims.OutputFormatResolves | hftools/dataset/dim.py:90-99 | an explicit format is returned unchanged; otherwise `%d`, `%.16e` or `%s` by the first coordinate, and IndexError exactly on empty data; storing the resolved format changes nothing |
| Dims.Init | hftools/dataset/dim.py:36-70 | succeeds exactly when a Dim primary's format resolves and the data argument, if one is given or the primary is a name, normalises (so `DimBase("f")` with no data raises TypeError); the built Dim has the requested class, the `unc` argument and no index; from a Dim, every argument not given (data, unit, format) is inherited, the format in resolved form; from a name, unit and format are the arguments |
| Dims.InheritsFromBase | hftools/dataset/dim.py:38-42 | built from a Dim with no other arguments, for any class: name, data and unit inherited, format resolved, `unc` dropped, failure exactly when the format cannot be resolved; with the base's class, the result compares equal to the base |
| Dims.ExplicitArgumentsWin | hftools/dataset/dim.py:49-56 | each non-None argument overrides the inherited value; `unc` is always the argument |
| Dims.NewDepends | hftools/dataset/dim.py:196-203 | a DimDepends succeeds exactly when the base constructor does; its index is the given one when built from a DimDepends with an index given, and 1 in every other case |
| Dims.NextUncertaintyDim | hftools/dataset/dim.py:205-206 | index + 1; same name, data and unit; equal to the original Dim; same hash key up to the resolved format |
| Dims.Walk | hftools/dataset/dim.py:141-144 | every index a slice walks is inside the data |
| Dims.SliceIndices | hftools/dataset/dim.py:141-144 | a zero step is the only error, and every selected index is in range |
| Dims.GetItem | hftools/dataset/dim.py:138-150 | `d[:]` is `d` itself; a position raises IndexError; any other slice or mask gives a Dim of the same class, name and unit, the selected data, the resolved format and no `unc` |
| Dims.ForwardWalk | hftools/dataset/dim.py:141-144 | a positive step `s` from `i` visits `i + k·s` for `k < ceil((stop - i) / s)`, in order |
| Dims.SteppedSlice | hftools/dataset/dim.py:141-144 | `data[a:b:s]` for in-range bounds and `s > 0` selects `data[a + k·s]` for each `k` with `a + k·s < b`, `ceil((b - a) / s)` of them |
| Dims.UnitStepWalk | hftools/dataset/dim.py:141-144 | a unit-step walk visits `i..stop-1` in order |
| Dims.UnitStepSlice | hftools/dataset/dim.py:141-144 | `data[a:b]` selects the subsequence `a..b` |
| Dims.ReverseWalk | hftools/dataset/dim.py:141-144 | a step of -1 from `i` visits `i, i-1, …, 0` |
| Dims.ReversedSlice | hftools/dataset/dim.py:141-144 | `data[::-1]` is the data reversed |
| Dims.BackwardWalk | hftools/dataset/dim.py:141-144 | a negative step `s` from `i` visits `i + k·s` for `k < ceil((i - stop) / -s)`, in order |
| Dims.SteppedReverseSlice | hftools/dataset/dim.py:141-144 | `data[::s]` with `s < 0` selects `data[n - 1 + k·s]` for `k < ceil(n / -s)`, each position inside the data |
| Dims.WholeRangeSliceIsEqualCopy | hftools/dataset/dim.py:139-144 | `d[0:]` is a new Dim equal to `d` with the same data and format |
| Dims.HashKeyOf | hftools/dataset/dim.py:134-136 | the definition is the model: the tuple `__hash__` hashes, with ints normalised as Python's hash does; specified by Dims.HashIgnoresUncAndIndex, Dims.DataEqIsNormalEquality and Dims.EqualSameFormatHashesAlike |
| Dims.Equal | hftools/dataset/dim.py:118-127 | the definition is the model: against a Dim, equal sortprio, name, class, coordinates and unit; against any other value, the name equals it; specified by Dims.EqualIsEquivalence, Dims.ComparisonIgnoresFormatAndUnc and Dims.EqualToRawComparesName |
| Dims.Less | hftools/dataset/dim.py:107-116 | the definition is the model: lexicographic on sortprio, name, class, coordinates and unit, TypeError where Python 3 cannot order; specified by Dims.LessIsStrict and Dims.PriorityDecidesOrder |
| Dims.HashIgnoresUncAndIndex | hftools/dataset/dim.py:134-136 | the hash key ignores `unc` and the DimDepends index, but not the format |
| Dims.DataEqIsNormalEquality | hftools/dataset/dim.py:118-136 | coordinate equality (1 == 1.0) is equality of the hashed coordinates |
| Dims.EqualIsEquivalence | hftools/dataset/dim.py:118-127 | Dim-to-Dim `==` is reflexive, symmetric and transitive |
| Dims.ComparisonIgnoresFormatAndUnc | hftools/dataset/dim.py:107-127 | `==` and `<` do not depend on format, `unc` or index of either side |
| Dims.EqualSameFormatHashesAlike | hftools/dataset/dim.py:118-136 | equal Dims with the same stored format have equal hash keys |
| Dims.RebuiltDimHashesApart | hftools/dataset/dim.py:134-136 | for any class, a Dim rebuilt through its own class from one with data but no explicit format is equal to it but has a different hash key |
| Dims.EqualIffConsistentKeys | hftools/dataset/dim.py:118-136 | with the format left out of the key, two Dims are equal exactly when their keys are |
| Dims.RebuiltDimHashesAlike | hftools/dataset/dim.py:134-136 | with that key, a rebuild of any Dim whose format resolves hashes like its base |
| Dims.EqualToRawComparesName | hftools/dataset/dim.py:124-127 | against a non-Dim, `==` and `<` compare only the name |
| Dims.LexLessAsymmetric | hftools/dataset/dim.py:107-116 | string ordering is asymmetric |
| Dims.TupleLessAsymmetric | hftools/dataset/dim.py:107-116 | coordinate-tuple ordering is asymmetric where defined |
| Dims.LessIsStrict | hftools/dataset/dim.py:107-116 | `<` is irreflexive and asymmetric, and never holds between equal Dims |
| Dims.SortPrio | hftools/dataset/dim.py:156-192 | the `sortprio` table: 0 exactly for base, anonymous, sweep, partial and depends; 1 exactly for DimRep; 1000 or more exactly for the matrix classes, with 1000, 1010, 1011, 1000, 1001 for `_DimMatrix`, `DimMatrix_i`, `DimMatrix_j`, `DimUMatrix_i`, `DimUMatrix_j` |
| Dims.PriorityDecidesOrder | hftools/dataset/dim.py:107-116 | a lower `sortprio` orders first, whatever the other fields |
| Sensitivities.AddSens | hftools/uncertainty/__init__.py:18-22 | the loop builds the union-sum: every key of either map, values added, a missing key counting 0 |
| Sensitivities.MultiplySens | hftools/uncertainty/__init__.py:24-28 | the loop builds the same keys with every value times `c` |
| Sensitivities.Neg | hftools/uncertainty/__init__.py:30-34 | the loop builds the same keys with every value negated |
| Sensitivities.SumCommutes | hftools/uncertainty/__init__.py:18-22 | the union-sum is commutative |
| Sensitivities.SumAssociates | hftools/uncertainty/__init__.py:18-22 | the union-sum is associative |
| Sensitivities.SumIdentity | hftools/uncertainty/__init__.py:18-22 | the empty map is its identity |
| Sensitivities.SumGet | hftools/uncertainty/__init__.py:18-22 | each partial of a sum is the sum of the partials |
| Sensitivities.SumExample | hftools/uncertainty/__init__.py:18-22 | `{x:2,y:3} + {x:5,z:1} = {x:7,y:3,z:1}` |
| Sensitivities.NegatedIsScaled | hftools/uncertainty/__init__.py:24-34 | negation is scaling by -1 |
| Sensitivities.ScaledSum | hftools/uncertainty/__init__.py:24-28 | scaling distributes over the union-sum |
| Sensitivities.ScaledScaled | hftools/uncertainty/__init__.py:24-28 | scaling twice is scaling by the product |
| Sensitivities.ScaledGet | hftools/uncertainty/__init__.py:24-28 | each partial of a scaled map is the partial times `c` |
| Uncertainty.UncertaintyMap.constructor | hftools/uncertainty/__init__.py:179 | a fresh dictionary with the given entries |
| Uncertainty.UncertaintyMap.Update | hftools/uncertainty/__init__.py:79-80 | `dict.update`: keys are the union, the argument's entries win, the rest are unchanged |
| Uncertainty.New | hftools/uncertainty/__init__.py:61-68 | with a name, `sens` is exactly `{name: 1}`; without, the given `sens` or the empty map |
| Uncertainty.Merge | hftools/uncertainty/__init__.py:79-80 | the right operand's dictionary is updated in place with the left's entries and is the result: on a shared key the left operand's entry wins, and the right operand's dict is shared with the result (the same step at __init__.py:102-103 and 123-124) |
| Uncertainty.Neg | hftools/uncertainty/__init__.py:70-73 | value and sensitivities negated, dictionary shared |
| Uncertainty.Add | hftools/uncertainty/__init__.py:75-81 | value sum, union-sum of sensitivities, the right operand's dictionary updated and shared; coverage kept |
| Uncertainty.AddConst | hftools/uncertainty/__init__.py:82-85 | value shifted, sensitivities and dictionary passed through |
| Uncertainty.RAdd | hftools/uncertainty/__init__.py:87-88 | `c + X` is `X + c` |
| Uncertainty.Sub | hftools/uncertainty/__init__.py:90-91 | `X - Y` is `X + (-Y)` |
| Uncertainty.SubConst | hftools/uncertainty/__init__.py:90-91 | `X - c` shifts the value only |
| Uncertainty.RSub | hftools/uncertainty/__init__.py:93-94 | `c - X` is `(-X) + c` |
| Uncertainty.Mul | hftools/uncertainty/__init__.py:96-104 | product value, product-rule sensitivities, dictionary updated and shared |
| Uncertainty.MulConst | hftools/uncertainty/__init__.py:105-109 | constant factor scales value and sensitivities |
| Uncertainty.RMul | hftools/uncertainty/__init__.py:111-115 | `c * X` scales the same way |
| Uncertainty.Div | hftools/uncertainty/__init__.py:117-125 | `__div__` with an uncertain divisor: quotient value, quotient-rule sensitivities, dictionary updated and shared |
| Uncertainty.DivConst | hftools/uncertainty/__init__.py:126-130 | `__div__` with a constant divisor `c` scales the sensitivities by `1/c`, so each partial multiplied back by `c` is the partial of X |
| Uncertainty.RDiv | hftools/uncertainty/__init__.py:132-137 | `__rdiv__`: `c` divided by X has value `c/Xv` and sensitivities scaled by `-c/Xv²` |
| Uncertainty.PartialOfConstQuotient | hftools/uncertainty/__init__.py:127 | the `1/c`-scaled map multiplied back by `c` gives the original partials |
| Uncertainty.FloorDiv | hftools/uncertainty/__init__.py:127 | Python's int `//`: the floor of `a / b`, for either sign of `b` |
| Uncertainty.IntDivisorSens | hftools/uncertainty/__init__.py:126-127 | the sensitivities of `X.__div__(c)` with an int `c` under Python 2: same keys, scaled by `1 // c`: all 0 for `c >= 2`, unchanged for `c == 1`, negated for `c <= -1` |
| Uncertainty.IntDivisorZeroesSens | hftools/uncertainty/__init__.py:126-127 | `X.__div__(2)` with `X = uv("p", …)` gives `{p: 0}` as written, where the intended map is `{p: 0.5}` |
| Uncertainty.Uv | hftools/uncertainty/__init__.py:177-179 | a fresh one-entry dictionary `{name: U}` and `sens = {name: 1}` |
| Uncertainty.ProductSens | hftools/uncertainty/__init__.py:99-101 | the definition is the model: `Xs·Yv` union-summed with `Ys·Xv`; specified key by key by Uncertainty.PartialOfProduct and Uncertainty.ProductRuleFirstOrder |
| Uncertainty.QuotientSens | hftools/uncertainty/__init__.py:120-122 | the definition is the model: `Xs·(1/Yv)` union-summed with `Ys·(-Xv/Yv²)`; specified by Uncertainty.PartialOfQuotient and Uncertainty.QuotientRuleFirstOrder |
| Uncertainty.ReciprocalSens | hftools/uncertainty/__init__.py:133 | the definition is the model: `Xs·(-c/Xv²)`; specified by Uncertainty.PartialOfReciprocal and Uncertainty.ReciprocalRuleFirstOrder |
| Uncertainty.PartialOfDifference | hftools/uncertainty/__init__.py:90-94 | partials of a negation and of a difference |
| Uncertainty.PartialOfProduct | hftools/uncertainty/__init__.py:98-101 | each partial of a product is `Yv·∂X + Xv·∂Y` |
| Uncertainty.ProductRuleFirstOrder | hftools/uncertainty/__init__.py:96-104 | perturbing both factors changes the product by h times the product-rule partial plus an h² term |
| Uncertainty.PartialOfQuotient | hftools/uncertainty/__init__.py:119-122 | the quotient-rule partial solves `Yv·∂Q + Q·∂Y = ∂X` |
| Uncertainty.PartialOfReciprocal | hftools/uncertainty/__init__.py:132-135 | the `c / X` partial solves `Xv·∂R + R·∂X = 0` |
| Uncertainty.QuotientFactors | hftools/uncertainty/__init__.py:119-121 | the scale factors `1/Yv` and `-Xv/Yv²` invert the denominator |
| Uncertainty.QuotientRuleFirstOrder | hftools/uncertainty/__init__.py:117-125 | a partial satisfying the quotient relation is the exact first-order change of `X/Y` |
| Uncertainty.ReciprocalRuleFirstOrder | hftools/uncertainty/__init__.py:132-136 | likewise for `c/X` |
| Uncertainty.ProductSensExample | hftools/uncertainty/__init__.py:98-101 | the product rule on `{p:1}` at 3 and `{q:1}` at 4 gives `{p:4, q:3}` |
| Uncertainty.QuotientSensExample | hftools/uncertainty/__init__.py:119-122 | the quotient rule on `{p:1}` at 3 and `{q:1}` at 4 gives `{p:0.25, q:-0.1875}` |
| Uncertainty.ProductExample | hftools/uncertainty/__init__.py:96-104 | p=3, q=4 give 12 and `{p:4, q:3}` |
| Uncertainty.QuotientExample | hftools/uncertainty/__init__.py:117-125 | float p=3.0, q=4.0 give 0.75 and `{p:0.25, q:-0.1875}` |
| Uncertainty.CollisionExample | hftools/uncertainty/__init__.py:75-81 | on a shared key the left operand's entry wins, and both results alias the right operand's dictionary |
| Diagonal.HasComplex | hftools/uncertainty/oldfromarrayobj.py:10-15 | true exactly when some axis is a complex kind |
| Diagonal.IsFullComplex | hftools/uncertainty/oldfromarrayobj.py:143-147 | false without dims, otherwise true exactly when some axis is complex |
| Diagonal.IndexOf | hftools/uncertainty/oldfromarrayobj.py:69 | `list.index`: the first position of the axis, ValueError exactly when absent |
| Diagonal.Indices | hftools/uncertainty/oldfromarrayobj.py:69 | one position per requested axis, each holding that axis; ValueError exactly when one is missing |
| Diagonal.DistinctIndices | hftools/uncertainty/oldfromarrayobj.py:69 | distinct axes get distinct positions |
| Diagonal.InsertDescending | hftools/uncertainty/oldfromarrayobj.py:74 | insertion adds exactly one copy of the element |
| Diagonal.InsertKeepsOrder | hftools/uncertainty/oldfromarrayobj.py:74 | insertion keeps a list sorted largest first |
| Diagonal.InsertKeepsStrictOrder | hftools/uncertainty/oldfromarrayobj.py:74 | and keeps it strictly descending for a new element |
| Diagonal.SortDescending | hftools/uncertainty/oldfromarrayobj.py:74 | `sort(reverse=True)` is a permutation |
| Diagonal.SortDescendingOrders | hftools/uncertainty/oldfromarrayobj.py:74 | the result is descending, strictly for distinct input |
| Diagonal.KeptLength | hftools/uncertainty/oldfromarrayobj.py:79-80 | deleting a set of in-range positions shortens the list by the set's size |
| Diagonal.KeptDelete | hftools/uncertainty/oldfromarrayobj.py:79-80 | a `del` at a position below every position already deleted removes exactly that element from what is kept, so deleting largest first removes exactly the chosen set |
| Diagonal.MinOf | hftools/uncertainty/oldfromarrayobj.py:81 | `min`: a member of the list no larger than any member |
| Diagonal.SumOfPickPermutation | hftools/uncertainty/oldfromarrayobj.py:74-76 | summing the strides in sorted order gives the sum in the listed order |
| Diagonal.MinOfPickPermutation | hftools/uncertainty/oldfromarrayobj.py:74-81 | likewise for the minimum extent |
| Diagonal.ViewSpec | hftools/uncertainty/oldfromarrayobj.py:64-83 | for distinct axes the view has rank reduced by `len(diagonal) - 1` |
| Diagonal.ViewCollapsed | hftools/uncertainty/oldfromarrayobj.py:81-82 | at the clamped insertion position, the extent is the minimum and the stride the sum of the collapsed ones |
| Diagonal.ViewOthers | hftools/uncertainty/oldfromarrayobj.py:69-82 | the other axes keep their extents, strides and relative order |
| Diagonal.ViewKeepsLeading | hftools/uncertainty/oldfromarrayobj.py:69-82 | axes before every collapsed one stay in place |
| Diagonal.SquareDiagonalView | hftools/uncertainty/oldfromarrayobj.py:55-61 | the diagonal of an N×N C-ordered block has extent N and stride N+1 |
| Diagonal.DeleteAxes | hftools/uncertainty/oldfromarrayobj.py:74-80 | the deletion loop leaves the kept extents and strides, gathers the collapsed extents and sums their strides |
| Diagonal.DiagonalView | hftools/uncertainty/oldfromarrayobj.py:64-83 | IndexError for an empty diagonal, AttributeError without dims, ValueError for a missing axis; otherwise exactly the reference view |
| Diagonal.Offset2Unique | hftools/uncertainty/oldfromarrayobj.py:55-61 | distinct cells of an N×N block have distinct offsets |
| Diagonal.WriteDiagonal | hftools/uncertainty/oldfromarrayobj.py:55-61 | writing `v` through the diagonal view of a zero N×N block gives `v[k]` at (k,k) and zero elsewhere |
| Diagonal.ExpandDiagonal | hftools/uncertainty/oldfromarrayobj.py:86-104 | errors for a non-diagonal or missing axis; otherwise the axis is replaced at its first position by its (indep, deriv) pair of its extent, all else unchanged, rank + 1 |
| Diagonal.ExpandEach | hftools/uncertainty/oldfromarrayobj.py:115-116 | each step acts on the previous result; rank grows by the number of axes expanded |
| Diagonal.DiagAxes | hftools/uncertainty/oldfromarrayobj.py:113 | every member is a diagonal axis of the list, and every diagonal axis of the list is a member |
| Diagonal.DiagAxesAppend | hftools/uncertainty/oldfromarrayobj.py:113 | the comprehension keeps list order: the diagonal axes of `a + b` are those of `a` followed by those of `b` |
| Diagonal.Expanded | hftools/uncertainty/oldfromarrayobj.py:107-117 | the reference expansion: no diagonal axis left, one more axis per diagonal axis |
| Diagonal.ExpandAfter | hftools/uncertainty/oldfromarrayobj.py:111-117 | expanding the diagonal axes after a prefix without one expands them in place |
| Diagonal.ExpandAllSpec | hftools/uncertainty/oldfromarrayobj.py:111-117 | expanding every diagonal axis in order gives the reference expansion |
| Diagonal.ExpandDiagonals | hftools/uncertainty/oldfromarrayobj.py:107-117 | the loop computes the fold over the given axes; with none given, AttributeError without dims, else the reference expansion |
| Diagonal.PackedRoundTrip | hftools/uncertainty/oldfromarrayobj.py:133-138 | the first column of a block gives the scalar back |
| Diagonal.BlockProduct | hftools/uncertainty/oldfromarrayobj.py:134-136 | the block of a complex product is the product of the blocks |
| Diagonal.PackedDims | hftools/uncertainty/oldfromarrayobj.py:127-130 | the dims plus the two `cplx` axes, or those alone without dims; always full-complex |
| Diagonal.MakeFullComplex | hftools/uncertainty/oldfromarrayobj.py:121-140 | a full-complex input is returned unchanged; otherwise shape + (2,2), real elements, and block `[[re,-im],[im,re]]` or `[[x,0],[0,0]]` per element; the result is always full-complex, so a second call returns it unchanged |

## Left out

- `as_strided` (oldfromarrayobj.py:18-46) rebuilds an array from a raw buffer interface. The view is modelled by its extent and stride lists, and offsets by index arithmetic.
- `__pow__` and `__rpow__` need real exponentiation and logarithms, which this model does not have.
- `cast_to_uncertainty_matrix` renames matrix axes through the array's dims API, which is not part of this model. `Uncertainty.Uv` takes the cast matrix as its input.
- `Slicer` indexes numpy arrays of partials. Values here are scalars.
- Dims.Init: the model assumes coordinates that numpy round-trips unchanged. The source reads a base Dim's coordinates through the `data` property (dim.py:39, 72-80). That property builds a numpy array, and the constructor reads it back through `tolist()`. Mixed text and number coordinates therefore come back as strings: `DimBase(DimBase("x", [1, "a"]))` stores `("1", "a")` and is not equal to its base.
- Dims.GetItem: the same assumption for the selected coordinates, which the source also reads through the `data` property (dim.py:142, 146).
- Dims.InheritsFromBase: the same assumption; for mixed text and number coordinates the copy's data differs from the base's.
- Dims.WholeRangeSliceIsEqualCopy: the same assumption; for mixed text and number coordinates `d[0:]` is not equal to `d`.
- Dims.NextUncertaintyDim: the same assumption, since it builds through Dims.Init from the Dim itself.
- `fullsize`, `__hfarray__` and the `__repr__` methods of dim.py are numpy conversion and presentation only.
- `info_has_complex` only wraps `dims_has_complex` behind a deprecation warning.
- `is_integer` and `is_numlike` are not part of this model. Elements are tagged (`Int`, `Float`, `Text`, `Time`), and the two helpers are read as "is `Int`" and "is `Int` or `Float`".
- Dims.Less: where sortprio and name tie and the classes differ, Python 3 cannot order the class objects; the model answers TypeError.
- `copy()` returns the Dim itself. On immutable values that is the identity, so it has no member of its own.
- numpy dtypes, broadcasting and array-valued partials are not modelled. Values are exact reals, not IEEE floats.
- Uncertainty.Div: requires a nonzero divisor. Division by zero with IEEE infinities or NaN is not modelled.
- Uncertainty.DivConst: requires a nonzero constant, for the same reason.
- Uncertainty.RDiv: requires a nonzero value, for the same reason.
- Uncertainty.Div: models the `__div__` method (__init__.py:117-125) for float values; every value is an exact real. Python 2's `/` floors when both values are ints: p=3 and q=4 as ints give value 0 and sensitivities `{p: 0, q: -1}`, which the model does not capture. Only Python 2's classic `/` calls `__div__`. The class defines no `__truediv__`, so under Python 3 `X / Y` raises TypeError, which the model does not capture.
- Uncertainty.DivConst: models the constant branch of `__div__` (__init__.py:126-130) for a float constant. Under Python 2, `1 / other` on an int floors, which `Uncertainty.IntDivisorSens` models separately (see Findings).
- Uncertainty.RDiv: models `__rdiv__` (__init__.py:132-137) for float operands; Python 2's flooring of `-other / self.value ** 2` and `other / self.value` on ints is not modelled. The class defines no `__rtruediv__`, so under Python 3 `c / X` raises TypeError, which the model does not capture.
- The source squares with `** 2`. The model writes `-Xv/Yv²` as `-Xv/Yv/Yv`, which is equal over the reals.
- `_DiagAxis`, `ComplexDiagAxis`, `ComplexIndepAxis`, `ComplexDerivAxis`, `CPLX` and `hfarray` are not defined in oldfromarrayobj.py. They are the axis kinds of `Diagonal.Axis` and the constant `Diagonal.Cplx`.
- Axis equality is structural (kind, name, extent, complex flag).
- Diagonal.ExpandDiagonal: models the axis list and shape of the new array. The values written through the diagonal view are modelled by `Diagonal.WriteDiagonal` for the N×N block alone; other axes broadcast in numpy and are not modelled.
- Diagonal.DiagonalView: the result is specified only when the diagonal axes are distinct and the array has one axis per dimension. For repeated axes the source deletes positions twice, and that result is left unspecified.
- Diagonal.MakeFullComplex: the class of the result (`a.__class__` or `hfarray`) is not modelled. Without dims the axis list is the two `cplx` axes alone, while the shape keeps the input's axes; the array constructor that would receive this is not part of this model.

## Findings

| source | as written | input that shows it | evidently intended | confidence | as-written member | corrected member |
|---|---|---|---|---|---|---|
| hftools/dataset/dim.py:134-136 | `__hash__` covers the stored output format, which `__eq__` ignores | `DimBase("f", [1])` and `DimBase(DimBase("f", [1]))`: the second stores `"%d"`, so they are equal but hash apart | equal Dims hash alike, as Python requires of `__hash__` | medium, not executed | Dims.RebuiltDimHashesApart | Dims.EqualIffConsistentKeys |
| hftools/uncertainty/__init__.py:126-127 | `X.__div__(c)` scales the sensitivities by `1 / other`, which Python 2 evaluates as floor division when `other` is an int | `uv("p", 3.0, U).__div__(2)`: `1 / 2` is `0`, so the sensitivities become `{p: 0}` instead of `{p: 0.5}` | each sensitivity divided by `c` (`1.0 / other`) | medium, not executed | Uncertainty.IntDivisorZeroesSens | Uncertainty.DivConst |
