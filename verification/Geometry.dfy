/** Squared distances between quantised vectors, and the bounding-box bound on them. */
module Geometry {
  const PADDED: nat := 16
  /** Quantisation clamps every code to this magnitude. */
  const QUANT_MAX: int := 10000

  ghost predicate Bounded(v: seq<int>) {
    forall j :: 0 <= j < |v| ==> -QUANT_MAX <= v[j] <= QUANT_MAX
  }

  function Square(x: int): (r: int)
    ensures r >= 0
  {
    x * x
  }

  /** Squared distance over the first `n` dimensions. */
  function PartialDist(q: seq<int>, v: seq<int>, n: nat): (r: int)
    requires n <= |q| && n <= |v|
    ensures r >= 0
  {
    if n == 0 then 0 else PartialDist(q, v, n - 1) + Square(q[n - 1] - v[n - 1])
  }

  function Dist(q: seq<int>, v: seq<int>): int
    requires |q| == PADDED && |v| == PADDED
  {
    PartialDist(q, v, PADDED)
  }

  /** How far `x` lies outside the interval from `lo` to `hi`. */
  function Gap(x: int, lo: int, hi: int): int {
    if x < lo then lo - x else if x > hi then x - hi else 0
  }

  function BoxBound(q: seq<int>, lo: seq<int>, hi: seq<int>, n: nat): int
    requires n <= |q| && n <= |lo| && n <= |hi|
  {
    if n == 0 then 0
    else BoxBound(q, lo, hi, n - 1) + Square(Gap(q[n - 1], lo[n - 1], hi[n - 1]))
  }

  ghost predicate InBox(v: seq<int>, lo: seq<int>, hi: seq<int>) {
    |v| == |lo| == |hi| && forall j :: 0 <= j < |v| ==> lo[j] <= v[j] <= hi[j]
  }

  lemma SquareMonotone(x: int, y: int)
    requires 0 <= x <= y || y <= -x <= 0
    ensures Square(x) <= Square(y)
  {
    if 0 <= x <= y {
      assert x * x <= x * y <= y * y;
    } else {
      assert x * x <= x * (-y) <= (-y) * (-y);
    }
  }

  lemma SquareBound(x: int, m: int)
    requires -m <= x <= m
    ensures Square(x) <= m * m
  {
    if x >= 0 { SquareMonotone(x, m); } else { SquareMonotone(-x, m); assert Square(-x) == Square(x); }
  }

  /** More dimensions never shorten the distance. */
  lemma {:induction false} PartialDistGrows(q: seq<int>, v: seq<int>, m: nat, n: nat)
    requires m <= n <= |q| && n <= |v|
    ensures PartialDist(q, v, m) <= PartialDist(q, v, n)
  {
    if m < n { PartialDistGrows(q, v, m, n - 1); }
  }

  lemma {:induction false} PartialDistBound(q: seq<int>, v: seq<int>, n: nat)
    requires n <= |q| && n <= |v| && Bounded(q) && Bounded(v)
    ensures PartialDist(q, v, n) <= n * 400_000_000
  {
    if n > 0 {
      PartialDistBound(q, v, n - 1);
      SquareBound(q[n - 1] - v[n - 1], 20_000);
    }
  }

  lemma {:induction false} BoxBoundSound(q: seq<int>, v: seq<int>, lo: seq<int>, hi: seq<int>, n: nat)
    requires n <= |v| <= |q| && InBox(v, lo, hi)
    ensures BoxBound(q, lo, hi, n) <= PartialDist(q, v, n)
  {
    if n > 0 {
      BoxBoundSound(q, v, lo, hi, n - 1);
      var j := n - 1;
      assert lo[j] <= v[j] <= hi[j];
      SquareMonotone(Gap(q[j], lo[j], hi[j]), q[j] - v[j]);
    }
  }

  /** The point of a box nearest to `q`. */
  function Clamp(q: seq<int>, lo: seq<int>, hi: seq<int>): seq<int>
    requires |q| == |lo| == |hi|
  {
    seq(|q|, j requires 0 <= j < |q| =>
      if q[j] < lo[j] then lo[j] else if q[j] > hi[j] then hi[j] else q[j])
  }

  /** The bound is attained: no larger bound would be sound for every box. */
  lemma {:induction false} BoxBoundTight(q: seq<int>, lo: seq<int>, hi: seq<int>, n: nat)
    requires n <= |q| == |lo| == |hi|
    requires forall j :: 0 <= j < |lo| ==> lo[j] <= hi[j]
    ensures InBox(Clamp(q, lo, hi), lo, hi)
    ensures BoxBound(q, lo, hi, n) == PartialDist(q, Clamp(q, lo, hi), n)
  {
    if n > 0 {
      BoxBoundTight(q, lo, hi, n - 1);
      var j := n - 1;
      var g := Gap(q[j], lo[j], hi[j]);
      assert Clamp(q, lo, hi)[j] == q[j] - g || Clamp(q, lo, hi)[j] == q[j] + g;
      assert Square(g) == Square(-g);
    }
  }

  // ---- what a distance is ----

  lemma {:induction false} SelfDistance(q: seq<int>, n: nat)
    requires n <= |q|
    ensures PartialDist(q, q, n) == 0
  {
    if n > 0 { SelfDistance(q, n - 1); }
  }

  /** Moving one coordinate by one changes the squared distance as it should, at any distance. */
  lemma {:induction false} DistanceStep(q: seq<int>, v: seq<int>, j: nat, n: nat)
    requires n <= |q| && n <= |v| && j < |v| && j < |q|
    ensures PartialDist(q, v[j := v[j] + 1], n) == PartialDist(q, v, n) + if j < n then 2 * (v[j] - q[j]) + 1 else 0
  {
    if n > 0 {
      DistanceStep(q, v, j, n - 1);
      if j == n - 1 { SquareStep(q[j] - v[j]); }
    }
  }

  lemma SquareStep(x: int)
    ensures Square(x - 1) == Square(x) - 2 * x + 1
  {}

  /** All sixteen coordinates count, each by its square. */
  lemma DistIs(q: seq<int>, v: seq<int>, j: nat)
    requires |q| == PADDED && |v| == PADDED && j < PADDED
    ensures Dist(q, q) == 0 && Dist(q, v[j := v[j] + 1]) == Dist(q, v) + 2 * (v[j] - q[j]) + 1
  {
    SelfDistance(q, PADDED);
    DistanceStep(q, v, j, PADDED);
  }
}
