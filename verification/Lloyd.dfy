/** The clustering iterations of the builder, over exact reals: the error they report never rises. */
module Lloyd {
  const DIMS: nat := 14

  ghost predicate Points(ps: seq<seq<real>>) {
    forall i :: 0 <= i < |ps| ==> |ps[i]| == DIMS
  }

  function Sq(x: real): (r: real)
    ensures r >= 0.0
  {
    x * x
  }

  /** Squared distance over the first `n` dimensions. */
  function Dist2To(a: seq<real>, b: seq<real>, n: nat): (r: real)
    requires n <= |a| && n <= |b|
    ensures r >= 0.0
  {
    if n == 0 then 0.0 else Dist2To(a, b, n - 1) + Sq(a[n - 1] - b[n - 1])
  }

  function Dist2(a: seq<real>, b: seq<real>): real
    requires |a| == DIMS && |b| == DIMS
  {
    Dist2To(a, b, DIMS)
  }

  /** All fourteen coordinates count: only a point itself is at distance zero. */
  lemma {:induction false} ZeroIff(a: seq<real>, b: seq<real>, n: nat)
    requires |a| == 14 && |b| == 14 && n <= 14
    ensures Dist2To(a, b, n) == 0.0 <==> forall j :: 0 <= j < n ==> a[j] == b[j]
  {
    hide Sq;
    if n > 0 {
      ZeroIff(a, b, n - 1);
      var gap := a[n - 1] - b[n - 1];
      SqZero(gap);
      assert Dist2To(a, b, n) == Dist2To(a, b, n - 1) + Sq(gap);
      assert Dist2To(a, b, n) == 0.0 <==> Dist2To(a, b, n - 1) == 0.0 && gap == 0.0;
    }
  }

  lemma SqZero(x: real)
    ensures Sq(x) == 0.0 <==> x == 0.0
  {
    var s := Sq(x);
    assert s == x * x;
    if x != 0.0 {
      assert s / x == x;
    } else {
      assert s == 0.0 * x;
    }
  }

  lemma ApartIff(a: seq<real>, b: seq<real>)
    requires |a| == 14 && |b| == 14
    ensures Dist2(a, b) == 0.0 <==> a == b
  {
    ZeroIff(a, b, 14);
  }

  /** The first nearest among the first `n` centers. */
  function Nearest(centers: seq<seq<real>>, p: seq<real>, n: nat): (best: nat)
    requires 0 < n <= |centers| && Points(centers) && |p| == DIMS
    ensures best < n
    ensures forall c :: 0 <= c < n ==> Dist2(p, centers[best]) <= Dist2(p, centers[c])
  {
    if n == 1 then 0
    else
      var b := Nearest(centers, p, n - 1);
      if Dist2(p, centers[n - 1]) < Dist2(p, centers[b]) then n - 1 else b
  }

  /** The scan for the nearest center: only a strictly smaller distance replaces the one held. */
  method FindNearest(centers: seq<seq<real>>, p: seq<real>) returns (best: nat, bestD: real)
    requires 0 < |centers| && Points(centers) && |p| == DIMS
    ensures best == Nearest(centers, p, |centers|) && bestD == Dist2(p, centers[best])
    ensures forall c :: 0 <= c < best ==> Dist2(p, centers[c]) > bestD
  {
    hide Dist2To;
    best, bestD := 0, Dist2(p, centers[0]);
    for ci := 1 to |centers|
      invariant best == Nearest(centers, p, ci) && bestD == Dist2(p, centers[best])
      invariant forall c :: 0 <= c < best ==> Dist2(p, centers[c]) > bestD
    {
      var d := Dist2(p, centers[ci]);
      if d < bestD {
        best, bestD := ci, d;
      }
    }
  }

  /** The error of a set of centers: every point to its nearest one. */
  function Sse(sample: seq<seq<real>>, centers: seq<seq<real>>): real
    requires Points(sample) && Points(centers) && |centers| > 0
  {
    if sample == [] then 0.0
    else
      var p := sample[|sample| - 1];
      Sse(sample[..|sample| - 1], centers) + Dist2(p, centers[Nearest(centers, p, |centers|)])
  }

  ghost predicate Assignment(assign: seq<nat>, n: nat, k: nat) {
    |assign| == n && forall i :: 0 <= i < n ==> assign[i] < k
  }

  /** The error when every point is charged to the center it is assigned to. */
  function Charged(sample: seq<seq<real>>, assign: seq<nat>, centers: seq<seq<real>>): real
    requires Points(sample) && Points(centers) && Assignment(assign, |sample|, |centers|)
  {
    if sample == [] then 0.0
    else
      var m := |sample| - 1;
      Charged(sample[..m], assign[..m], centers) + Dist2(sample[m], centers[assign[m]])
  }

  /** No assignment beats the nearest center. */
  lemma {:induction false} NearestIsCheapest(sample: seq<seq<real>>, assign: seq<nat>, centers: seq<seq<real>>)
    requires Points(sample) && Points(centers) && |centers| > 0 && Assignment(assign, |sample|, |centers|)
    ensures Sse(sample, centers) <= Charged(sample, assign, centers)
  {
    if sample != [] {
      var m := |sample| - 1;
      NearestIsCheapest(sample[..m], assign[..m], centers);
    }
  }

  // ---- one coordinate of one center ----

  /** How many points are assigned to center `i`, and the sum and sum of squares of their coordinate `j`. */
  function Count(assign: seq<nat>, i: nat): nat {
    if assign == [] then 0
    else Count(assign[..|assign| - 1], i) + if assign[|assign| - 1] == i then 1 else 0
  }

  function SumDim(sample: seq<seq<real>>, assign: seq<nat>, i: nat, j: nat): real
    requires Points(sample) && |assign| == |sample| && j < DIMS
  {
    if sample == [] then 0.0
    else
      var m := |sample| - 1;
      SumDim(sample[..m], assign[..m], i, j) + if assign[m] == i then sample[m][j] else 0.0
  }

  /** What the points of center `i` are charged for coordinate `j` when it is `x`. */
  function CostDim(sample: seq<seq<real>>, assign: seq<nat>, i: nat, j: nat, x: real): real
    requires Points(sample) && |assign| == |sample| && j < DIMS
  {
    if sample == [] then 0.0
    else
      var m := |sample| - 1;
      CostDim(sample[..m], assign[..m], i, j, x) + if assign[m] == i then Sq(sample[m][j] - x) else 0.0
  }

  /** What moving a coordinate from `x` to `y` costs `n` points whose coordinates sum to `s`. */
  function Shift(n: real, s: real, x: real, y: real): real {
    n * (Sq(y) - Sq(x)) - 2.0 * (y - x) * s
  }

  lemma ShiftOneMore(n: real, s: real, p: real, x: real, y: real)
    ensures Shift(n + 1.0, s + p, x, y) == Shift(n, s, x, y) + (Sq(p - y) - Sq(p - x))
  {
    var d := Sq(y) - Sq(x);
    assert (n + 1.0) * d == n * d + d;
    assert 2.0 * (y - x) * (s + p) == 2.0 * (y - x) * s + 2.0 * (y - x) * p;
    assert Sq(p - y) - Sq(p - x) == d - 2.0 * (y - x) * p;
  }

  lemma ShiftFromMean(n: real, s: real, mean: real, x: real)
    requires n >= 0.0 && s == n * mean
    ensures Shift(n, s, mean, x) >= 0.0
  {
    var d := x - mean;
    assert Sq(x) - Sq(mean) == d * d + 2.0 * d * mean;
    assert n * (d * d + 2.0 * d * mean) == n * (d * d) + 2.0 * d * (n * mean);
    assert n * (d * d) >= 0.0;
  }

  /** Moving the coordinate changes the charge by a quadratic in the count and the sum alone. */
  lemma {:induction false} CostShift(sample: seq<seq<real>>, assign: seq<nat>, i: nat, j: nat, x: real, y: real)
    requires Points(sample) && |assign| == |sample| && j < DIMS
    ensures CostDim(sample, assign, i, j, y) - CostDim(sample, assign, i, j, x)
         == Shift(Count(assign, i) as real, SumDim(sample, assign, i, j), x, y)
  {
    if sample == [] {
      assert Shift(0.0, 0.0, x, y) == 0.0;
    } else {
      var m := |sample| - 1;
      CostShift(sample[..m], assign[..m], i, j, x, y);
      var n, s := Count(assign[..m], i) as real, SumDim(sample[..m], assign[..m], i, j);
      ShiftOneMore(n, s, sample[m][j], x, y);
      hide Shift, Sq;
      assert Count(assign, i) as real == if assign[m] == i then n + 1.0 else n;
      assert SumDim(sample, assign, i, j) == if assign[m] == i then s + sample[m][j] else s;
    }
  }

  /** The mean is the cheapest value of a coordinate. */
  lemma MeanIsCheapest(sample: seq<seq<real>>, assign: seq<nat>, i: nat, j: nat, x: real, mean: real)
    requires Points(sample) && |assign| == |sample| && j < DIMS
    requires SumDim(sample, assign, i, j) == Count(assign, i) as real * mean
    ensures CostDim(sample, assign, i, j, mean) <= CostDim(sample, assign, i, j, x)
  {
    hide Shift, Sq, CostDim, Count, SumDim;
    var n, s := Count(assign, i) as real, SumDim(sample, assign, i, j);
    ShiftFromMean(n, s, mean, x);
    CostShift(sample, assign, i, j, mean, x);
  }

  lemma {:induction false} DistanceShift(p: seq<real>, c: seq<real>, j: nat, v: real, n: nat)
    requires |p| == DIMS && |c| == DIMS && j < DIMS && n <= DIMS
    ensures Dist2To(p, c[j := v], n)
         == Dist2To(p, c, n) + if j < n then Sq(p[j] - v) - Sq(p[j] - c[j]) else 0.0
  {
    if n > 0 { DistanceShift(p, c, j, v, n - 1); }
  }

  /** Setting one coordinate of one center changes the charge only through the points of that center. */
  lemma {:induction false} ChargedShift(sample: seq<seq<real>>, assign: seq<nat>, centers: seq<seq<real>>,
                                        i: nat, j: nat, v: real)
    requires Points(sample) && Points(centers) && Assignment(assign, |sample|, |centers|)
    requires i < |centers| && j < DIMS
    ensures Points(centers[i := centers[i][j := v]])
    ensures Charged(sample, assign, centers[i := centers[i][j := v]]) - Charged(sample, assign, centers)
         == CostDim(sample, assign, i, j, v) - CostDim(sample, assign, i, j, centers[i][j])
  {
    if sample != [] {
      var m := |sample| - 1;
      ChargedShift(sample[..m], assign[..m], centers, i, j, v);
      DistanceShift(sample[m], centers[i], j, v, DIMS);
    }
  }

  /** A center with no points may go anywhere. */
  lemma {:induction false} UnusedCenter(sample: seq<seq<real>>, assign: seq<nat>, centers: seq<seq<real>>,
                                        i: nat, c: seq<real>)
    requires Points(sample) && Points(centers) && Assignment(assign, |sample|, |centers|)
    requires i < |centers| && |c| == DIMS && Count(assign, i) == 0
    ensures Points(centers[i := c]) && Charged(sample, assign, centers[i := c]) == Charged(sample, assign, centers)
  {
    if sample != [] {
      var m := |sample| - 1;
      UnusedCenter(sample[..m], assign[..m], centers, i, c);
    }
  }

  // ---- one iteration, in place ----

  ghost predicate Totals(sample: seq<seq<real>>, assign: seq<nat>, k: nat, counts: seq<nat>, sums: seq<seq<real>>) {
    && Points(sample) && |assign| == |sample| && |counts| == |sums| == k && Points(sums)
    && (forall i :: 0 <= i < k ==> counts[i] == Count(assign, i))
    && (forall i, j :: 0 <= i < k && 0 <= j < DIMS ==> sums[i][j] == SumDim(sample, assign, i, j))
  }

  function AddPoint(s: seq<real>, p: seq<real>): (r: seq<real>)
    requires |s| == |p| == DIMS
    ensures |r| == DIMS
  {
    seq(DIMS, j requires 0 <= j < DIMS => s[j] + p[j])
  }

  lemma TotalsNext(sample: seq<seq<real>>, assign: seq<nat>, k: nat, counts: seq<nat>, sums: seq<seq<real>>,
                   p: seq<real>, best: nat)
    requires Totals(sample, assign, k, counts, sums) && |p| == DIMS && best < k
    ensures Totals(sample + [p], assign + [best], k,
                   counts[best := counts[best] + 1], sums[best := AddPoint(sums[best], p)])
  {
    var sample', assign' := sample + [p], assign + [best];
    assert sample'[..|sample|] == sample && assign'[..|sample|] == assign;
  }

  lemma NoTotals(k: nat, counts: seq<nat>, sums: seq<seq<real>>)
    requires |counts| == |sums| == k && Points(sums)
    requires forall i :: 0 <= i < k ==> counts[i] == 0
    requires forall i, j :: 0 <= i < k && 0 <= j < DIMS ==> sums[i][j] == 0.0
    ensures Totals([], [], k, counts, sums)
  {}

  /** Every point to its first nearest center. */
  ghost function NearestAll(sample: seq<seq<real>>, centers: seq<seq<real>>): (assign: seq<nat>)
    requires Points(sample) && Points(centers) && |centers| > 0
    ensures Assignment(assign, |sample|, |centers|)
  {
    if sample == [] then []
    else
      var m := |sample| - 1;
      NearestAll(sample[..m], centers) + [Nearest(centers, sample[m], |centers|)]
  }

  lemma NearestAllNext(sample: seq<seq<real>>, centers: seq<seq<real>>, t: nat, best: nat)
    requires Points(sample) && Points(centers) && |centers| > 0 && t < |sample|
    requires best == Nearest(centers, sample[t], |centers|)
    ensures var before, after := sample[..t], sample[..t + 1];
            && NearestAll(after, centers) == NearestAll(before, centers) + [best]
            && Sse(after, centers) == Sse(before, centers) + Dist2(sample[t], centers[best])
            && Charged(after, NearestAll(after, centers), centers)
               == Charged(before, NearestAll(before, centers), centers) + Dist2(sample[t], centers[best])
  {
    hide Dist2, Nearest;
    var before, after := sample[..t], sample[..t + 1];
    assert after[..t] == before;
    var assign := NearestAll(before, centers);
    assert (assign + [best])[..t] == assign;
  }

  lemma NoPoints(centers: seq<seq<real>>)
    requires Points(centers) && |centers| > 0
    ensures NearestAll([], centers) == [] && Sse([], centers) == 0.0 == Charged([], [], centers)
  {}

  /** Assigns every point to its nearest center, adding up counts, sums and the error. */
  method AssignAll(sample: seq<seq<real>>, centers: seq<seq<real>>)
    returns (counts: seq<nat>, sums: seq<seq<real>>, sse: real)
    requires Points(sample) && Points(centers) && |centers| > 0
    ensures Totals(sample, NearestAll(sample, centers), |centers|, counts, sums)
    ensures sse == Sse(sample, centers) == Charged(sample, NearestAll(sample, centers), centers)
  {
    hide Totals, Dist2, AddPoint, Nearest, Count, SumDim, Sse, Charged, NearestAll;
    var k := |centers|;
    ghost var assign: seq<nat> := [];
    sse := 0.0;
    counts, sums := seq(k, _ => 0), seq(k, _ => seq(DIMS, _ => 0.0));
    NoTotals(k, counts, sums);
    NoPoints(centers);
    assert sample[..0] == [];
    for t := 0 to |sample|
      invariant Points(sample[..t]) && assign == NearestAll(sample[..t], centers)
      invariant Totals(sample[..t], assign, k, counts, sums)
      invariant sse == Sse(sample[..t], centers) == Charged(sample[..t], assign, centers)
    {
      var p := sample[t];
      var best, bestD := FindNearest(centers, p);
      TotalsNext(sample[..t], assign, k, counts, sums, p, best);
      NearestAllNext(sample, centers, t, best);
      assert sample[..t] + [p] == sample[..t + 1];
      TotalsShape(sample[..t], assign, k, counts, sums, best);
      counts, sums := counts[best := counts[best] + 1], sums[best := AddPoint(sums[best], p)];
      sse := sse + bestD;
      assign := assign + [best];
    }
    assert sample[..|sample|] == sample;
  }

  lemma TotalsShape(sample: seq<seq<real>>, assign: seq<nat>, k: nat, counts: seq<nat>, sums: seq<seq<real>>, i: nat)
    requires Totals(sample, assign, k, counts, sums) && i < k
    ensures |counts| == k && |sums| == k && |sums[i]| == DIMS
  {}

  lemma MeanTimes(n: nat, s: real)
    requires n > 0
    ensures s == n as real * (s * (1.0 / n as real))
  {}

  /** Moving one coordinate to the mean of its points does not raise the charge. */
  lemma MoveToMean(sample: seq<seq<real>>, assign: seq<nat>, centers: seq<seq<real>>, i: nat, j: nat, mean: real)
    requires Points(sample) && Points(centers) && Assignment(assign, |sample|, |centers|)
    requires i < |centers| && j < DIMS
    requires SumDim(sample, assign, i, j) == Count(assign, i) as real * mean
    ensures Points(centers[i := centers[i][j := mean]])
    ensures Charged(sample, assign, centers[i := centers[i][j := mean]]) <= Charged(sample, assign, centers)
  {
    hide Charged, CostDim, Count, SumDim;
    ChargedShift(sample, assign, centers, i, j, mean);
    MeanIsCheapest(sample, assign, i, j, centers[i][j], mean);
  }

  /** The new value of a center: the mean of its points, or some point of the sample. */
  ghost predicate Moved(sample: seq<seq<real>>, assign: seq<nat>, i: nat, c: seq<real>)
    requires Points(sample) && |assign| == |sample|
  {
    && |c| == DIMS
    && if Count(assign, i) == 0 then c in sample else
       forall j :: 0 <= j < DIMS ==> SumDim(sample, assign, i, j) == Count(assign, i) as real * c[j]
  }

  /** Moves one center to the mean of its points. */
  method MoveCenter(sample: seq<seq<real>>, ghost assign: seq<nat>, centers: array<seq<real>>, i: nat,
                    count: nat, sum: seq<real>)
    requires Points(sample) && Points(centers[..]) && Assignment(assign, |sample|, centers.Length)
    requires i < centers.Length && count == Count(assign, i) > 0 && |sum| == DIMS
    requires forall j :: 0 <= j < DIMS ==> sum[j] == SumDim(sample, assign, i, j)
    modifies centers
    ensures Points(centers[..]) && Moved(sample, assign, i, centers[i])
    ensures forall h :: 0 <= h < centers.Length && h != i ==> centers[h] == old(centers[h])
    ensures Charged(sample, assign, centers[..]) <= old(Charged(sample, assign, centers[..]))
  {
    hide Charged, Count, SumDim;
    var inv := 1.0 / count as real;
    for j := 0 to DIMS
      invariant Points(centers[..])
      invariant forall h :: 0 <= h < centers.Length && h != i ==> centers[h] == old(centers[h])
      invariant forall h :: 0 <= h < j ==> SumDim(sample, assign, i, h) == count as real * centers[i][h]
      invariant Charged(sample, assign, centers[..]) <= old(Charged(sample, assign, centers[..]))
    {
      MeanTimes(count, sum[j]);
      var mean := sum[j] * inv;
      MoveToMean(sample, assign, centers[..], i, j, mean);
      ghost var after := centers[..][i := centers[..][i][j := mean]];
      centers[i] := centers[i][j := mean];
      assert centers[..] == after;
    }
  }

  /**
   * Moves every center to the mean of its points and reseeds the ones without points at the sample point
   * that `pick` names: the charge of the old assignment does not rise.
   */
  method UpdateCenters(sample: seq<seq<real>>, ghost assign: seq<nat>, centers: array<seq<real>>,
                       counts: seq<nat>, sums: seq<seq<real>>, pick: nat -> nat)
    requires Points(centers[..]) && Totals(sample, assign, centers.Length, counts, sums) && sample != []
    requires Assignment(assign, |sample|, centers.Length)
    modifies centers
    ensures Points(centers[..])
    ensures forall i :: 0 <= i < centers.Length ==> Moved(sample, assign, i, centers[i])
    ensures Charged(sample, assign, centers[..]) <= old(Charged(sample, assign, centers[..]))
  {
    hide Charged, Count, SumDim;
    for i := 0 to centers.Length
      invariant Points(centers[..])
      invariant forall h :: 0 <= h < i ==> Moved(sample, assign, h, centers[h])
      invariant Charged(sample, assign, centers[..]) <= old(Charged(sample, assign, centers[..]))
    {
      if counts[i] > 0 {
        MoveCenter(sample, assign, centers, i, counts[i], sums[i]);
      } else {
        var c := sample[pick(i) % |sample|];
        UnusedCenter(sample, assign, centers[..], i, c);
        ghost var after := centers[..][i := c];
        centers[i] := c;
        assert centers[..] == after;
      }
    }
  }

  /** The iterations: returns the error each one reports before it moves the centers. */
  method Iterate(sample: seq<seq<real>>, centers: array<seq<real>>, iters: nat, pick: (nat, nat) -> nat)
    returns (reported: seq<real>)
    requires Points(sample) && Points(centers[..]) && sample != [] && centers.Length > 0
    modifies centers
    ensures Points(centers[..]) && |reported| == iters
    ensures iters > 0 ==> reported[0] == old(Sse(sample, centers[..]))
    ensures forall a, b :: 0 <= a <= b < iters ==> reported[b] <= reported[a]
    ensures forall a :: 0 <= a < iters ==> Sse(sample, centers[..]) <= reported[a]
  {
    hide Sse, Charged, Totals, Moved;
    reported := [];
    for it := 0 to iters
      invariant Points(centers[..]) && |reported| == it
      invariant it == 0 ==> Sse(sample, centers[..]) == old(Sse(sample, centers[..]))
      invariant it > 0 ==> reported[0] == old(Sse(sample, centers[..]))
      invariant forall a, b :: 0 <= a <= b < it ==> reported[b] <= reported[a]
      invariant forall a :: 0 <= a < it ==> Sse(sample, centers[..]) <= reported[a]
    {
      ghost var before := centers[..];
      ghost var assign := NearestAll(sample, centers[..]);
      var counts, sums, sse := AssignAll(sample, centers[..]);
      UpdateCenters(sample, assign, centers, counts, sums, i => pick(it, i));
      NearestIsCheapest(sample, assign, centers[..]);
      reported := reported + [sse];
    }
  }
}
