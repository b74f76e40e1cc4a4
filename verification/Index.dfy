/** The inverted-file index in memory, and what makes it well formed. */
module Index {
  import opened Machine
  import opened Geometry
  import opened BlockLayout
  import opened Kernels
  import opened TopFive
  import opened SeenMask

  datatype Index = Index(
    k: nat,
    n: nat,
    nBlocks: nat,
    centroids: seq<int>,
    boxMin: seq<int>,
    boxMax: seq<int>,
    offsets: seq<nat>,
    counts: seq<nat>,
    vectors: seq<int>,
    labels: seq<int>)

  function CeilDiv8(x: nat): nat { (x + LANES - 1) / LANES }

  /** The fewest blocks of eight that hold `x` vectors. */
  lemma CeilDiv8Is(x: nat)
    ensures 8 * CeilDiv8(x) - 8 < x <= 8 * CeilDiv8(x)
  {}

  /** Block offsets are the running sums of the clusters' block counts. */
  ghost predicate OffsetsOk(offsets: seq<nat>, counts: seq<nat>) {
    && |offsets| == |counts| + 1
    && offsets[0] == 0
    && forall c :: 0 <= c < |counts| ==> offsets[c + 1] == offsets[c] + CeilDiv8(counts[c])
  }

  lemma {:induction false} OffsetsMonotone(offsets: seq<nat>, counts: seq<nat>, c: nat, d: nat)
    requires OffsetsOk(offsets, counts) && c <= d <= |counts|
    ensures offsets[c] <= offsets[d]
  {
    if c < d { OffsetsMonotone(offsets, counts, c, d - 1); }
  }

  ghost predicate Shape(ix: Index) {
    && ix.k <= MAX_K
    && |ix.counts| == ix.k
    && OffsetsOk(ix.offsets, ix.counts)
    && |ix.centroids| == CeilDiv8(ix.k) * BLOCK_CODES
    && |ix.boxMin| == ix.k * PADDED && |ix.boxMax| == ix.k * PADDED
    && |ix.vectors| == ix.offsets[ix.k] * BLOCK_CODES
    && |ix.labels| == ix.offsets[ix.k] * LANES
  }

  /** The slot of the `j`-th vector of a cluster. */
  function Slot(ix: Index, c: nat, j: nat): nat
    requires c < |ix.offsets|
  {
    ix.offsets[c] * LANES + j
  }

  lemma SlotInRange(ix: Index, c: nat, j: nat)
    requires Shape(ix) && c < ix.k && j < ix.counts[c]
    ensures Slot(ix, c, j) < |ix.labels| && HoldsSlot(ix.vectors, Slot(ix, c, j))
    ensures ix.offsets[c] * LANES <= Slot(ix, c, j) < ix.offsets[c + 1] * LANES
  {
    OffsetsMonotone(ix.offsets, ix.counts, c + 1, ix.k);
    var slot := Slot(ix, c, j);
    assert j < CeilDiv8(ix.counts[c]) * LANES;
    assert slot / LANES < ix.offsets[c + 1];
  }

  /** Different places in the index are different slots. */
  lemma SlotsDistinct(ix: Index, c: nat, j: nat, d: nat, i: nat)
    requires Shape(ix) && c < ix.k && j < ix.counts[c] && d < ix.k && i < ix.counts[d]
    requires Slot(ix, c, j) == Slot(ix, d, i)
    ensures c == d && j == i
  {
    SlotInRange(ix, c, j);
    SlotInRange(ix, d, i);
    if c < d {
      OffsetsMonotone(ix.offsets, ix.counts, c + 1, d);
    } else if d < c {
      OffsetsMonotone(ix.offsets, ix.counts, d + 1, c);
    }
  }

  ghost function StoredVector(ix: Index, c: nat, j: nat): (v: seq<int>)
    requires Shape(ix) && c < ix.k && j < ix.counts[c]
    ensures |v| == PADDED
  {
    SlotInRange(ix, c, j);
    VectorAt(ix.vectors, Slot(ix, c, j))
  }

  function BoxLow(ix: Index, c: nat): (v: seq<int>)
    requires (c + 1) * PADDED <= |ix.boxMin|
    ensures |v| == PADDED
  {
    ix.boxMin[c * PADDED..(c + 1) * PADDED]
  }

  function BoxHigh(ix: Index, c: nat): (v: seq<int>)
    requires (c + 1) * PADDED <= |ix.boxMax|
    ensures |v| == PADDED
  {
    ix.boxMax[c * PADDED..(c + 1) * PADDED]
  }

  /** The box of a nonempty cluster encloses its vectors and stays within the code range. */
  ghost predicate BoxOk(ix: Index, c: nat)
    requires Shape(ix) && c < ix.k
  {
    && Bounded(BoxLow(ix, c)) && Bounded(BoxHigh(ix, c))
    && forall j :: 0 <= j < ix.counts[c] ==> InBox(StoredVector(ix, c, j), BoxLow(ix, c), BoxHigh(ix, c))
  }

  ghost predicate WF(ix: Index) {
    && Shape(ix)
    && Bounded(ix.centroids) && Bounded(ix.vectors)
    && (forall s :: 0 <= s < |ix.labels| ==> ix.labels[s] == 0 || ix.labels[s] == 1)
    && (forall c :: 0 <= c < ix.k && ix.counts[c] > 0 ==> BoxOk(ix, c))
  }

  /** The `j`-th vector of cluster `c` as the query sees it. */
  ghost function ClusterItem(ix: Index, q: seq<int>, c: nat, j: nat): (x: Item)
    requires Shape(ix) && |q| == PADDED && c < ix.k && j < ix.counts[c]
    ensures x.slot == Slot(ix, c, j)
  {
    SlotInRange(ix, c, j);
    Item(Dist(q, StoredVector(ix, c, j)), ix.labels[Slot(ix, c, j)], Slot(ix, c, j))
  }

  ghost function ClusterItems(ix: Index, q: seq<int>, c: nat): (xs: seq<Item>)
    requires Shape(ix) && |q| == PADDED && c < ix.k
    ensures |xs| == ix.counts[c]
    ensures forall j :: 0 <= j < ix.counts[c] ==> xs[j] == ClusterItem(ix, q, c, j)
  {
    seq(ix.counts[c], j requires 0 <= j < ix.counts[c] => ClusterItem(ix, q, c, j))
  }

  ghost predicate Query(q: seq<int>) { |q| == PADDED && Bounded(q) }

  /** Any sixteen codes within ten thousand make a query. */
  lemma QueryIs(q: seq<int>)
    ensures Query(q) <==> |q| == 16 && forall j :: 0 <= j < 16 ==> -10_000 <= q[j] <= 10_000
  {}

  lemma Shaped(ix: Index, q: seq<int>)
    requires WF(ix) && Query(q)
    ensures Shape(ix) && |q| == PADDED
  {}

  lemma ItemRange(ix: Index, q: seq<int>, c: nat, j: nat)
    requires WF(ix) && Query(q) && c < ix.k && j < ix.counts[c]
    ensures var x := ClusterItem(ix, q, c, j);
            0 <= x.dist < I64_MAX && (x.fraud == 0 || x.fraud == 1)
  {
    SlotInRange(ix, c, j);
    VectorAtBounded(ix.vectors, Slot(ix, c, j));
    PartialDistBound(q, StoredVector(ix, c, j), PADDED);
  }

  ghost function Bound(ix: Index, q: seq<int>, c: nat): int
    requires Shape(ix) && |q| == PADDED && c < ix.k
  {
    BoxBound(q, BoxLow(ix, c), BoxHigh(ix, c), PADDED)
  }

  /** The box bound is at most the distance to any vector of the cluster. */
  lemma BoundSound(ix: Index, q: seq<int>, c: nat, j: nat)
    requires WF(ix) && Query(q) && c < ix.k && j < ix.counts[c]
    ensures Bound(ix, q, c) <= ClusterItems(ix, q, c)[j].dist
  {
    assert InBox(StoredVector(ix, c, j), BoxLow(ix, c), BoxHigh(ix, c));
    BoxBoundSound(q, StoredVector(ix, c, j), BoxLow(ix, c), BoxHigh(ix, c), PADDED);
  }

  /** A cluster whose bound does not beat the threshold leaves the five as they are. */
  lemma BoxPruneSound(ix: Index, q: seq<int>, c: nat, best: seq<Item>)
    requires WF(ix) && Query(q) && c < ix.k && |best| == TOP_K
    requires Bound(ix, q, c) >= Threshold(best)
    ensures Scan(best, ClusterItems(ix, q, c)) == best
  {
    var xs := ClusterItems(ix, q, c);
    forall j | 0 <= j < |xs| ensures xs[j].dist >= Threshold(best) { BoundSound(ix, q, c, j); }
    ScanFar(best, xs);
  }

  /** The bound of a nonempty cluster is the distance to the nearest point of its box. */
  lemma BoundIsNearest(ix: Index, q: seq<int>, c: nat)
    requires WF(ix) && Query(q) && c < ix.k && ix.counts[c] > 0
    ensures Bound(ix, q, c) == Dist(q, Geometry.Clamp(q, BoxLow(ix, c), BoxHigh(ix, c)))
    ensures InBox(Geometry.Clamp(q, BoxLow(ix, c), BoxHigh(ix, c)), BoxLow(ix, c), BoxHigh(ix, c))
  {
    assert BoxOk(ix, c);
    var v, lo, hi := StoredVector(ix, c, 0), BoxLow(ix, c), BoxHigh(ix, c);
    assert InBox(v, lo, hi);
    hide WF, Shape, StoredVector, BoxLow, BoxHigh;
    assert forall j :: 0 <= j < |lo| ==> lo[j] <= v[j] <= hi[j];
    BoxBoundTight(q, lo, hi, PADDED);
  }
}
