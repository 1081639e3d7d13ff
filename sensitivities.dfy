/**
 * The `Sensitivities` map of hftools/uncertainty/__init__.py: a finite map
 * from source name to the partial derivative of a quantity with respect to
 * that source. The three operations fill a fresh map entry by entry and
 * never touch their operands; each is a loop proved against the map it builds.
 */
module Sensitivities {

  /** Source name to partial derivative. */
  type Sens = map<string, real>

  /** `dict.get(k, 0)`. */
  function Get(s: Sens, k: string): real {
    if k in s then s[k] else 0.0
  }

  /** The union-sum: every key of either map, values added, a missing key counting as zero. */
  function Sum(a: Sens, b: Sens): Sens {
    map k | k in a.Keys + b.Keys :: Get(a, k) + Get(b, k)
  }

  /** The same keys, every value multiplied by `c`. */
  function Scaled(a: Sens, c: real): Sens {
    map k | k in a :: a[k] * c
  }

  /** The same keys, every value negated. */
  function Negated(a: Sens): Sens {
    map k | k in a :: -a[k]
  }

  /** `add_sens`: a copy of `a`, then each entry of `b` added in. */
  method AddSens(a: Sens, b: Sens) returns (out: Sens)
    ensures out == Sum(a, b)
  {
    out := a;
    var pending := b.Keys;
    while pending != {}
      invariant pending <= b.Keys
      invariant out.Keys == a.Keys + (b.Keys - pending)
      invariant forall k | k in out :: out[k] == Get(a, k) + (if k in b && k !in pending then b[k] else 0.0)
      decreases pending
    {
      var k :| k in pending;
      out := out[k := Get(out, k) + b[k]];
      pending := pending - {k};
    }
  }

  /** `multiply_sens`: a fresh map, each entry of `a` times `c`. */
  method MultiplySens(a: Sens, c: real) returns (out: Sens)
    ensures out == Scaled(a, c)
  {
    out := map[];
    var pending := a.Keys;
    while pending != {}
      invariant pending <= a.Keys
      invariant out.Keys == a.Keys - pending
      invariant forall k | k in out :: out[k] == a[k] * c
      decreases pending
    {
      var k :| k in pending;
      out := out[k := a[k] * c];
      pending := pending - {k};
    }
    assert out.Keys == Scaled(a, c).Keys;
    forall k | k in out ensures out[k] == Scaled(a, c)[k] {
      assert out[k] == a[k] * c;
    }
  }

  /** `Sensitivities.__neg__`: a fresh map, each entry of `a` negated. */
  method Neg(a: Sens) returns (out: Sens)
    ensures out == Negated(a)
  {
    out := map[];
    var pending := a.Keys;
    while pending != {}
      invariant pending <= a.Keys
      invariant out.Keys == a.Keys - pending
      invariant forall k | k in out :: out[k] == -a[k]
      decreases pending
    {
      var k :| k in pending;
      out := out[k := -a[k]];
      pending := pending - {k};
    }
  }

  /** The union-sum is commutative ... */
  lemma SumCommutes(a: Sens, b: Sens)
    ensures Sum(a, b) == Sum(b, a)
  {
    assert Sum(a, b).Keys == Sum(b, a).Keys;
  }

  /** ... associative ... */
  lemma SumAssociates(a: Sens, b: Sens, c: Sens)
    ensures Sum(Sum(a, b), c) == Sum(a, Sum(b, c))
  {
    var l, r := Sum(Sum(a, b), c), Sum(a, Sum(b, c));
    assert l.Keys == a.Keys + b.Keys + c.Keys == r.Keys;
    forall k | k in l ensures l[k] == r[k] {
      assert l[k] == Get(a, k) + Get(b, k) + Get(c, k);
      assert r[k] == Get(a, k) + (Get(b, k) + Get(c, k));
    }
  }

  /** ... and has the empty map as identity. */
  lemma SumIdentity(a: Sens)
    ensures Sum(a, map[]) == a
  {
    assert Sum(a, map[]).Keys == a.Keys;
  }

  /** Negation is scaling by -1 ... */
  lemma NegatedIsScaled(a: Sens)
    ensures Negated(a) == Scaled(a, -1.0)
  {
    assert Negated(a).Keys == Scaled(a, -1.0).Keys;
    forall k | k in a ensures Negated(a)[k] == Scaled(a, -1.0)[k] {
      assert a[k] * -1.0 == -a[k];
    }
  }

  /** ... scaling distributes over the union-sum ... */
  lemma ScaledSum(a: Sens, b: Sens, c: real)
    ensures Scaled(Sum(a, b), c) == Sum(Scaled(a, c), Scaled(b, c))
  {
    var l, r := Scaled(Sum(a, b), c), Sum(Scaled(a, c), Scaled(b, c));
    assert l.Keys == r.Keys;
    forall k | k in l ensures l[k] == r[k] {
      ScaledSumAt(a, b, c, k);
    }
  }

  lemma ScaledSumAt(a: Sens, b: Sens, c: real, k: string)
    ensures Get(Scaled(Sum(a, b), c), k) == Get(Sum(Scaled(a, c), Scaled(b, c)), k)
  {
    var s, r := Sum(a, b), Sum(Scaled(a, c), Scaled(b, c));
    ScaledGet(s, c, k);
    SumGet(a, b, k);
    SumGet(Scaled(a, c), Scaled(b, c), k);
    ScaledGet(a, c, k);
    ScaledGet(b, c, k);
    RightDistributes(Get(s, k), Get(a, k), Get(b, k), c, Get(Scaled(s, c), k), Get(r, k),
                     Get(Scaled(a, c), k), Get(Scaled(b, c), k));
  }

  lemma RightDistributes(t: real, x: real, y: real, c: real, l: real, r: real, xc: real, yc: real)
    requires t == x + y && l == t * c && xc == x * c && yc == y * c && r == xc + yc
    ensures l == r
  {
  }

  /** ... and scalings compose. */
  lemma ScaledScaled(a: Sens, c: real, d: real)
    ensures Scaled(Scaled(a, c), d) == Scaled(a, c * d)
  {
    var l, r := Scaled(Scaled(a, c), d), Scaled(a, c * d);
    assert l.Keys == r.Keys;
    forall k | k in l ensures l[k] == r[k] {
      var x, y := a[k], Scaled(a, c)[k];
      assert y == x * c;
      assert l[k] == y * d;
      MulAssociates(y, x, c, d);
    }
  }

  lemma MulAssociates(y: real, x: real, c: real, d: real)
    requires y == x * c
    ensures y * d == x * (c * d)
  {
  }

  /** Read key by key, the union-sum adds and scaling multiplies, a missing key reading as zero. */
  lemma SumGet(a: Sens, b: Sens, k: string)
    ensures Get(Sum(a, b), k) == Get(a, k) + Get(b, k)
  {
  }

  lemma ScaledGet(a: Sens, c: real, k: string)
    ensures Get(Scaled(a, c), k) == Get(a, k) * c
  {
    if k !in a {
      assert Get(a, k) * c == 0.0 * c == 0.0;
    }
  }

  /** The worked example: `{x: 2, y: 3}` plus `{x: 5, z: 1}` is `{x: 7, y: 3, z: 1}`. */
  lemma SumExample()
    ensures Sum(map["x" := 2.0, "y" := 3.0], map["x" := 5.0, "z" := 1.0])
         == map["x" := 7.0, "y" := 3.0, "z" := 1.0]
  {
    var r := Sum(map["x" := 2.0, "y" := 3.0], map["x" := 5.0, "z" := 1.0]);
    assert r.Keys == {"x", "y", "z"};
    assert r["x"] == 7.0 && r["y"] == 3.0 && r["z"] == 1.0;
  }
}
