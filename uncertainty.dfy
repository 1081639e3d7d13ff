/**
 * `UncertainValue` of hftools/uncertainty/__init__.py: forward-mode
 * propagation of first-order sensitivities through `+ - * /`.
 *
 * A value carries its nominal `value`, the map `sens` from source name to
 * partial derivative, and a reference to a dictionary from source name to
 * covariance matrix. The binary operators take the right operand's
 * dictionary, update it in place with the left operand's entries and hand
 * that same dictionary to the result, so the dictionary is a heap object
 * here and the mutation and sharing are part of every contract.
 */
module Uncertainty {
  import opened Wrappers
  import S = Sensitivities

  /** The covariance matrix stored for one source. */
  datatype Covariance = Covariance(rows: seq<seq<real>>)

  /** The `uncertainties` dictionary: a mutable, shareable object. */
  class UncertaintyMap {
    var entries: map<string, Covariance>

    constructor (m: map<string, Covariance>)
      ensures entries == m
    {
      entries := m;
    }

    /**
     * `dict.update`: every key of `other` is written into this map, so on a
     * key present in both, `other`'s entry wins; the keys only of this map
     * keep their entries.
     */
    method Update(other: UncertaintyMap)
      modifies this
      ensures entries.Keys == old(entries).Keys + old(other.entries).Keys
      ensures forall k | k in old(other.entries) :: entries[k] == old(other.entries)[k]
      ensures forall k | k in old(entries) && k !in old(other.entries) :: entries[k] == old(entries)[k]
    {
      entries := entries + other.entries;
    }
  }

  /** An uncertain quantity. Its fields are set once, by the constructor. */
  datatype UncertainValue = UncertainValue(
    name: Option<string>,
    value: real,
    uncertainties: UncertaintyMap,
    sens: S.Sens)

  /**
   * The constructor: a named value is its own single source with
   * sensitivity 1, whatever `sens` says; an unnamed one takes `sens`, or no
   * sensitivities at all when none is given.
   */
  function New(name: Option<string>, value: real, unc: UncertaintyMap, sens: Option<S.Sens>): (r: UncertainValue)
    ensures r.name == name && r.value == value && r.uncertainties == unc
    ensures name.Some? ==> r.sens.Keys == {name.value} && r.sens[name.value] == 1.0
    ensures name.None? && sens.None? ==> r.sens == map[]
    ensures name.None? && sens.Some? ==> r.sens == sens.value
  {
    if name.None? then UncertainValue(None, value, unc, sens.GetOr(map[]))
    else UncertainValue(name, value, unc, map[name.value := 1.0])
  }

  /** Every source a value depends on has a covariance entry. */
  predicate Covered(x: UncertainValue)
    reads x.uncertainties
  {
    x.sens.Keys <= x.uncertainties.entries.Keys
  }

  // ---------------------------------------------------------------------
  // Specification of the derivative part of each operator
  // ---------------------------------------------------------------------

  /** Product rule: `Xs * Yv + Ys * Xv`. */
  function ProductSens(xs: S.Sens, xv: real, ys: S.Sens, yv: real): S.Sens {
    S.Sum(S.Scaled(xs, yv), S.Scaled(ys, xv))
  }

  /** `1 / v`, the factor the numerator's sensitivities are scaled by in a quotient. */
  function Reciprocal(v: real): real
    requires v != 0.0
  {
    1.0 / v
  }

  /**
   * `-n / d ** 2`, the factor the denominator's sensitivities are scaled by
   * in a quotient `n / d`; the square is written as two divisions.
   */
  function DenominatorFactor(n: real, d: real): real
    requires d != 0.0
  {
    -n / d / d
  }

  /** Quotient rule: `Xs * (1 / Yv) + Ys * (-Xv / Yv ** 2)`. */
  function QuotientSens(xs: S.Sens, xv: real, ys: S.Sens, yv: real): S.Sens
    requires yv != 0.0
  {
    S.Sum(S.Scaled(xs, Reciprocal(yv)), S.Scaled(ys, DenominatorFactor(xv, yv)))
  }

  /** Derivative of `c / X`: `Xs * (-c / Xv ** 2)`. */
  function ReciprocalSens(xs: S.Sens, xv: real, c: real): S.Sens
    requires xv != 0.0
  {
    S.Scaled(xs, DenominatorFactor(c, xv))
  }

  // ---------------------------------------------------------------------
  // The operators
  // ---------------------------------------------------------------------

  /**
   * The shared step of every binary operator on two uncertain values: the
   * right operand's dictionary, updated in place with the left operand's.
   */
  method Merge(x: UncertainValue, y: UncertainValue) returns (unc: UncertaintyMap)
    modifies y.uncertainties
    ensures unc == y.uncertainties
    ensures unc.entries == old(y.uncertainties.entries) + old(x.uncertainties.entries)
  {
    unc := y.uncertainties;
    unc.Update(x.uncertainties);
  }

  /** `-X`: negated value and sensitivities, the same dictionary. */
  method Neg(x: UncertainValue) returns (r: UncertainValue)
    ensures r == UncertainValue(None, -x.value, x.uncertainties, S.Negated(x.sens))
  {
    var sens := S.Neg(x.sens);
    r := New(None, -x.value, x.uncertainties, Some(sens));
  }

  /** `X + Y`: values and sensitivities add; the result shares `Y`'s dictionary, now holding `X`'s entries too. */
  method Add(x: UncertainValue, y: UncertainValue) returns (r: UncertainValue)
    modifies y.uncertainties
    ensures r == UncertainValue(None, x.value + y.value, y.uncertainties, S.Sum(x.sens, y.sens))
    ensures r.uncertainties.entries == old(y.uncertainties.entries) + old(x.uncertainties.entries)
    ensures old(Covered(x)) && old(Covered(y)) ==> Covered(r)
  {
    var sens := S.AddSens(x.sens, y.sens);
    var unc := Merge(x, y);
    r := New(None, x.value + y.value, unc, Some(sens));
  }

  /** `X + c`: the value shifts, sensitivities and dictionary pass through. */
  method AddConst(x: UncertainValue, c: real) returns (r: UncertainValue)
    ensures r == UncertainValue(None, x.value + c, x.uncertainties, x.sens)
  {
    r := New(None, x.value + c, x.uncertainties, Some(x.sens));
  }

  /** `c + X`, which is `X + c`. */
  method RAdd(x: UncertainValue, c: real) returns (r: UncertainValue)
    ensures r == UncertainValue(None, c + x.value, x.uncertainties, x.sens)
  {
    r := AddConst(x, c);
  }

  /** `X - Y`, computed as `X + (-Y)`. */
  method Sub(x: UncertainValue, y: UncertainValue) returns (r: UncertainValue)
    modifies y.uncertainties
    ensures r == UncertainValue(None, x.value - y.value, y.uncertainties, S.Sum(x.sens, S.Negated(y.sens)))
    ensures r.uncertainties.entries == old(y.uncertainties.entries) + old(x.uncertainties.entries)
    ensures old(Covered(x)) && old(Covered(y)) ==> Covered(r)
  {
    var ny := Neg(y);
    r := Add(x, ny);
  }

  /** `X - c`, computed as `X + (-c)`. */
  method SubConst(x: UncertainValue, c: real) returns (r: UncertainValue)
    ensures r == UncertainValue(None, x.value - c, x.uncertainties, x.sens)
  {
    r := AddConst(x, -c);
  }

  /** `c - X`, computed as `(-X) + c`. */
  method RSub(x: UncertainValue, c: real) returns (r: UncertainValue)
    ensures r == UncertainValue(None, c - x.value, x.uncertainties, S.Negated(x.sens))
  {
    var nx := Neg(x);
    r := AddConst(nx, c);
  }

  /** `X * Y`: the product rule; the dictionaries merge as in `X + Y`. */
  method Mul(x: UncertainValue, y: UncertainValue) returns (r: UncertainValue)
    modifies y.uncertainties
    ensures r == UncertainValue(None, x.value * y.value, y.uncertainties, ProductSens(x.sens, x.value, y.sens, y.value))
    ensures r.uncertainties.entries == old(y.uncertainties.entries) + old(x.uncertainties.entries)
    ensures old(Covered(x)) && old(Covered(y)) ==> Covered(r)
  {
    var sens1 := S.MultiplySens(x.sens, y.value);
    var sens2 := S.MultiplySens(y.sens, x.value);
    var sens := S.AddSens(sens1, sens2);
    var unc := Merge(x, y);
    r := New(None, x.value * y.value, unc, Some(sens));
  }

  /** `X * c`: value and sensitivities scale by `c`. */
  method MulConst(x: UncertainValue, c: real) returns (r: UncertainValue)
    ensures r == UncertainValue(None, x.value * c, x.uncertainties, S.Scaled(x.sens, c))
  {
    var sens := S.MultiplySens(x.sens, c);
    r := New(None, x.value * c, x.uncertainties, Some(sens));
  }

  /** `c * X`. */
  method RMul(x: UncertainValue, c: real) returns (r: UncertainValue)
    ensures r == UncertainValue(None, x.value * c, x.uncertainties, S.Scaled(x.sens, c))
  {
    var sens := S.MultiplySens(x.sens, c);
    r := New(None, x.value * c, x.uncertainties, Some(sens));
  }

  /**
   * `__div__(X, Y)`: the quotient rule; the dictionaries merge as in `X + Y`.
   * Only Python 2's `/` calls `__div__`.
   */
  method Div(x: UncertainValue, y: UncertainValue) returns (r: UncertainValue)
    requires y.value != 0.0
    modifies y.uncertainties
    ensures r == UncertainValue(None, x.value / y.value, y.uncertainties, QuotientSens(x.sens, x.value, y.sens, y.value))
    ensures r.uncertainties.entries == old(y.uncertainties.entries) + old(x.uncertainties.entries)
    ensures old(Covered(x)) && old(Covered(y)) ==> Covered(r)
  {
    var sens1 := S.MultiplySens(x.sens, Reciprocal(y.value));
    var sens2 := S.MultiplySens(y.sens, DenominatorFactor(x.value, y.value));
    var sens := S.AddSens(sens1, sens2);
    var unc := Merge(x, y);
    r := New(None, x.value / y.value, unc, Some(sens));
  }

  /** `__div__(X, c)`: value and sensitivities scale by `1 / c`. */
  method DivConst(x: UncertainValue, c: real) returns (r: UncertainValue)
    requires c != 0.0
    ensures r == UncertainValue(None, x.value / c, x.uncertainties, S.Scaled(x.sens, Reciprocal(c)))
    ensures forall k :: S.Get(r.sens, k) * c == S.Get(x.sens, k)
  {
    forall k {
      PartialOfConstQuotient(x.sens, c, k);
    }
    var sens := S.MultiplySens(x.sens, Reciprocal(c));
    r := New(None, x.value / c, x.uncertainties, Some(sens));
  }

  /**
   * `__rdiv__(X, c)`: value `c / Xv`, sensitivities scaled by `-c / Xv ** 2`.
   * Only Python 2's `/` calls `__rdiv__`.
   */
  method RDiv(x: UncertainValue, c: real) returns (r: UncertainValue)
    requires x.value != 0.0
    ensures r == UncertainValue(None, c / x.value, x.uncertainties, ReciprocalSens(x.sens, x.value, c))
  {
    var sens := S.MultiplySens(x.sens, DenominatorFactor(c, x.value));
    r := New(None, c / x.value, x.uncertainties, Some(sens));
  }

  /**
   * `uv`: a named source with a fresh one-entry dictionary. The covariance is
   * taken as already converted to the uncertainty-matrix axes.
   */
  method Uv(name: string, value: real, u: Covariance) returns (r: UncertainValue)
    ensures fresh(r.uncertainties)
    ensures r.uncertainties.entries == map[name := u]
    ensures r.name == Some(name) && r.value == value && r.sens == map[name := 1.0]
    ensures Covered(r)
  {
    var unc := new UncertaintyMap(map[name := u]);
    r := New(Some(name), value, unc, None);
  }

  // ---------------------------------------------------------------------
  // The sensitivities are the partial derivatives
  //
  // `Get(s, k)` is read as the partial derivative with respect to source
  // `k`. Each operator's map is checked against the differentiation rule it
  // implements, and each rule is checked against the exact value of the
  // operation when source `k` moves by `h`.
  // ---------------------------------------------------------------------

  /** Negation and subtraction differentiate term by term. */
  lemma PartialOfDifference(xs: S.Sens, ys: S.Sens, k: string)
    ensures S.Get(S.Negated(xs), k) == -S.Get(xs, k)
    ensures S.Get(S.Sum(xs, S.Negated(ys)), k) == S.Get(xs, k) - S.Get(ys, k)
  {
    S.NegatedIsScaled(xs);
    S.NegatedIsScaled(ys);
    S.ScaledGet(xs, -1.0, k);
    S.ScaledGet(ys, -1.0, k);
    S.SumGet(xs, S.Negated(ys), k);
  }

  /** The product map is `d(XY) = Y dX + X dY`. */
  lemma PartialOfProduct(xs: S.Sens, xv: real, ys: S.Sens, yv: real, k: string)
    ensures S.Get(ProductSens(xs, xv, ys, yv), k) == yv * S.Get(xs, k) + xv * S.Get(ys, k)
  {
    S.SumGet(S.Scaled(xs, yv), S.Scaled(ys, xv), k);
    S.ScaledGet(xs, yv, k);
    S.ScaledGet(ys, xv, k);
  }

  /**
   * Product rule: when source `k` moves by `h`, the product of the moved
   * values is the nominal product, plus `h` times the product map's entry,
   * plus the second-order term `h^2 * dX * dY`.
   */
  lemma ProductRuleFirstOrder(xs: S.Sens, xv: real, ys: S.Sens, yv: real, k: string, h: real)
    ensures (xv + h * S.Get(xs, k)) * (yv + h * S.Get(ys, k))
         == xv * yv + h * S.Get(ProductSens(xs, xv, ys, yv), k) + h * h * (S.Get(xs, k) * S.Get(ys, k))
  {
    PartialOfProduct(xs, xv, ys, yv, k);
    assert (xv + h * S.Get(xs, k)) * (yv + h * S.Get(ys, k))
        == xv * yv + h * (yv * S.Get(xs, k) + xv * S.Get(ys, k)) + h * h * (S.Get(xs, k) * S.Get(ys, k));
  }

  /**
   * The quotient map is the derivative of `Q = X / Y`: it satisfies the
   * product rule for `X = Q * Y`, `Yv * dQ + (Xv / Yv) * dY == dX`.
   */
  lemma PartialOfQuotient(xs: S.Sens, xv: real, ys: S.Sens, yv: real, k: string)
    requires yv != 0.0
    ensures yv * S.Get(QuotientSens(xs, xv, ys, yv), k) + (xv / yv) * S.Get(ys, k) == S.Get(xs, k)
  {
    S.SumGet(S.Scaled(xs, Reciprocal(yv)), S.Scaled(ys, DenominatorFactor(xv, yv)), k);
    S.ScaledGet(xs, Reciprocal(yv), k);
    S.ScaledGet(ys, DenominatorFactor(xv, yv), k);
    QuotientFactors(xv, yv);
    Distribute(yv, S.Get(xs, k), Reciprocal(yv), S.Get(ys, k), DenominatorFactor(xv, yv));
  }

  lemma Distribute(y: real, a: real, r: real, b: real, f: real)
    ensures y * (a * r + b * f) == (r * y) * a + (f * y) * b
  {
  }

  /** The map of `c / X` is the derivative of `R = c / X`: `Xv * dR + (c / Xv) * dX == 0`. */
  lemma PartialOfReciprocal(xs: S.Sens, xv: real, c: real, k: string)
    requires xv != 0.0
    ensures xv * S.Get(ReciprocalSens(xs, xv, c), k) + (c / xv) * S.Get(xs, k) == 0.0
  {
    S.ScaledGet(xs, DenominatorFactor(c, xv), k);
    QuotientFactors(c, xv);
    assert xv * S.Get(ReciprocalSens(xs, xv, c), k) == (DenominatorFactor(c, xv) * xv) * S.Get(xs, k);
  }

  /** The map of `X / c` is the derivative of `X / c`: multiplied back by `c` it gives `dX`. */
  lemma PartialOfConstQuotient(xs: S.Sens, c: real, k: string)
    requires c != 0.0
    ensures S.Get(S.Scaled(xs, Reciprocal(c)), k) * c == S.Get(xs, k)
  {
    S.ScaledGet(xs, Reciprocal(c), k);
    QuotientFactors(1.0, c);
    Cancel(S.Get(xs, k), Reciprocal(c), c);
  }

  lemma Cancel(a: real, r: real, c: real)
    requires r * c == 1.0
    ensures a * r * c == a
  {
    assert a * r * c == a * (r * c);
  }

  // ---------------------------------------------------------------------
  // `__div__` by a Python 2 int
  //
  // Python 2's `/` on two ints is floor division, so `1 / other` at
  // __init__.py:127 is `1 // other` when `other` is an int.
  // ---------------------------------------------------------------------

  /** Python's `a // b` on ints: the floor of the quotient (Dafny's `/` is Euclidean). */
  function FloorDiv(a: int, b: int): (r: int)
    requires b != 0
    ensures b > 0 ==> r * b <= a < r * b + b
    ensures b < 0 ==> r * b >= a > r * b + b
  {
    if b > 0 then a / b else (-a) / (-b)
  }

  /** The sensitivities `X.__div__(c)` computes for an int `c`, as written: scaled by `1 // c`. */
  function IntDivisorSens(xs: S.Sens, c: int): (r: S.Sens)
    requires c != 0
    ensures r.Keys == xs.Keys
    ensures c >= 2 ==> forall k | k in r :: r[k] == 0.0
    ensures c == 1 ==> r == xs
    ensures c <= -1 ==> r == S.Negated(xs)
  {
    assert c >= 2 ==> FloorDiv(1, c) == 0;
    assert c <= -1 ==> FloorDiv(1, c) == -1;
    S.NegatedIsScaled(xs);
    S.Scaled(xs, FloorDiv(1, c) as real)
  }

  /**
   * `X.__div__(2)` with `X = uv("p", ...)`: as written every sensitivity
   * becomes 0, while the derivative of `X / 2` is `0.5`.
   */
  lemma IntDivisorZeroesSens()
    ensures IntDivisorSens(map["p" := 1.0], 2) == map["p" := 0.0]
    ensures S.Scaled(map["p" := 1.0], Reciprocal(2.0)) == map["p" := 0.5]
  {
  }

  /** The quotient's factors, each multiplied back by the divisor. */
  lemma QuotientFactors(n: real, d: real)
    requires d != 0.0
    ensures (n / d) * d == n
    ensures Reciprocal(d) * d == 1.0
    ensures DenominatorFactor(n, d) * d == -(n / d)
  {
    assert (-n / d / d) * d == -n / d;
  }

  /**
   * Quotient rule: if `dq` satisfies the product rule for `X = Q * Y`, as
   * the quotient map's entries do, then when the sources move so that `X`
   * and `Y` change by `h * a` and `h * b`, the quotient is the nominal one,
   * plus `h * dq`, minus the second-order remainder `h^2 * b * dq / (Yv + h * b)`.
   */
  lemma QuotientRuleFirstOrder(xv: real, yv: real, a: real, b: real, dq: real, h: real)
    requires yv != 0.0 && yv + h * b != 0.0
    requires yv * dq + (xv / yv) * b == a
    ensures (xv + h * a) / (yv + h * b) == xv / yv + h * dq - h * h * b * dq / (yv + h * b)
  {
    QuotientFactors(xv, yv);
    assert (xv / yv + h * dq) * (yv + h * b) == (xv / yv) * yv + h * (yv * dq + (xv / yv) * b) + h * h * b * dq;
    assert ((xv + h * a) / (yv + h * b)) * (yv + h * b) == xv + h * a;
    assert (h * h * b * dq / (yv + h * b)) * (yv + h * b) == h * h * b * dq;
    assert ((xv + h * a) / (yv + h * b) - (xv / yv + h * dq - h * h * b * dq / (yv + h * b))) * (yv + h * b) == 0.0;
  }

  /**
   * Rule for `c / X`: if `dr` satisfies `Xv * dr + (c / Xv) * a == 0`, as the
   * entries of the map of `c / X` do, then when `X` changes by `h * a`,
   * `c / X` is the nominal value, plus `h * dr`, minus the remainder `h^2 * a * dr / (Xv + h * a)`.
   */
  lemma ReciprocalRuleFirstOrder(c: real, xv: real, a: real, dr: real, h: real)
    requires xv != 0.0 && xv + h * a != 0.0
    requires xv * dr + (c / xv) * a == 0.0
    ensures c / (xv + h * a) == c / xv + h * dr - h * h * a * dr / (xv + h * a)
  {
    QuotientFactors(c, xv);
    assert (c / xv + h * dr) * (xv + h * a) == (c / xv) * xv + h * (xv * dr + (c / xv) * a) + h * h * a * dr;
    assert (c / (xv + h * a)) * (xv + h * a) == c;
    assert (h * h * a * dr / (xv + h * a)) * (xv + h * a) == h * h * a * dr;
    assert (c / (xv + h * a) - (c / xv + h * dr - h * h * a * dr / (xv + h * a))) * (xv + h * a) == 0.0;
  }

  // ---------------------------------------------------------------------
  // Worked examples
  // ---------------------------------------------------------------------

  /** The product rule at `p = 3`, `q = 4`: sensitivities `{p: 4, q: 3}`. */
  lemma ProductSensExample()
    ensures ProductSens(map["p" := 1.0], 3.0, map["q" := 1.0], 4.0) == map["p" := 4.0, "q" := 3.0]
  {
    var s := ProductSens(map["p" := 1.0], 3.0, map["q" := 1.0], 4.0);
    assert S.Scaled(map["p" := 1.0], 4.0) == map["p" := 4.0];
    assert S.Scaled(map["q" := 1.0], 3.0) == map["q" := 3.0];
    assert s.Keys == {"p", "q"};
  }

  /** The quotient rule at `p = 3`, `q = 4`: sensitivities `{p: 0.25, q: -0.1875}`. */
  lemma QuotientSensExample()
    ensures QuotientSens(map["p" := 1.0], 3.0, map["q" := 1.0], 4.0) == map["p" := 0.25, "q" := -0.1875]
  {
    var s := QuotientSens(map["p" := 1.0], 3.0, map["q" := 1.0], 4.0);
    assert Reciprocal(4.0) == 0.25 && DenominatorFactor(3.0, 4.0) == -0.1875;
    assert S.Scaled(map["p" := 1.0], 0.25) == map["p" := 0.25];
    assert S.Scaled(map["q" := 1.0], -0.1875) == map["q" := -0.1875];
    assert s.Keys == {"p", "q"};
  }

  lemma TwoEntries(u: Covariance)
    ensures map["q" := u] + map["p" := u] == map["p" := u, "q" := u]
  {
  }

  /** `p = 3`, `q = 4`: `p * q` is 12 with sensitivities `{p: 4, q: 3}`. */
  method ProductExample(u: Covariance) returns (r: UncertainValue)
    ensures r.value == 12.0 && r.sens == map["p" := 4.0, "q" := 3.0]
    ensures r.uncertainties.entries == map["p" := u, "q" := u]
  {
    var p := Uv("p", 3.0, u);
    var q := Uv("q", 4.0, u);
    r := Mul(p, q);
    ProductSensExample();
    TwoEntries(u);
  }

  /** `p = 3`, `q = 4`: `p.__div__(q)` is 0.75 with sensitivities `{p: 0.25, q: -0.1875}`. */
  method QuotientExample(u: Covariance) returns (r: UncertainValue)
    ensures r.value == 0.75 && r.sens == map["p" := 0.25, "q" := -0.1875]
  {
    var p := Uv("p", 3.0, u);
    var q := Uv("q", 4.0, u);
    r := Div(p, q);
    QuotientSensExample();
  }

  /**
   * The left operand wins a key collision, and the right operand's own
   * dictionary is the one that changes: `(a1 + (a2 + b))` ends with `b`'s
   * dictionary holding `b`'s entry and the first `a`'s covariance, shared by
   * `b`, by `a2 + b` and by the result.
   */
  method CollisionExample(u1: Covariance, u2: Covariance, ub: Covariance)
    returns (b: UncertainValue, s: UncertainValue, r: UncertainValue)
    ensures s.uncertainties == b.uncertainties && r.uncertainties == b.uncertainties
    ensures b.uncertainties.entries == map["a" := u1, "b" := ub]
  {
    var a1 := Uv("a", 1.0, u1);
    var a2 := Uv("a", 2.0, u2);
    b := Uv("b", 0.0, ub);
    s := Add(a2, b);
    var afterFirst := b.uncertainties.entries;
    assert afterFirst == map["b" := ub] + map["a" := u2];
    assert a1.uncertainties.entries == map["a" := u1];
    r := Add(a1, s);
    assert b.uncertainties.entries == afterFirst + map["a" := u1];
    LeftEntryWins(u1, u2, ub);
  }

  lemma LeftEntryWins(u1: Covariance, u2: Covariance, ub: Covariance)
    ensures (map["b" := ub] + map["a" := u2]) + map["a" := u1] == map["a" := u1, "b" := ub]
  {
  }
}
