/** Building and then searching: the answer in terms of the vectors that went in. */
module EndToEnd {
  import opened Sequences
  import opened Machine
  import opened Geometry
  import opened TopFive
  import opened ProbeHeap
  import opened SeenMask
  import opened Index
  import opened SearchSpec
  import opened Exactness
  import opened BruteForce
  import opened Builder

  /** The input vectors as the query sees them. */
  ghost function InputItems(vecs: seq<seq<int>>, labels: seq<int>, q: seq<int>): (xs: seq<Item>)
    requires Vectors(vecs) && |labels| == |vecs| && |q| == PADDED
    ensures |xs| == |vecs|
    ensures forall i :: 0 <= i < |xs| ==> xs[i] == Item(Dist(q, vecs[i]), labels[i], i)
  {
    seq(|vecs|, i requires 0 <= i < |vecs| => Item(Dist(q, vecs[i]), labels[i], i))
  }

  /** A measure of items that does not look at where they are stored. */
  ghost predicate SlotBlind(f: Item -> int) {
    forall d, l, s, t :: f(Item(d, l, s)) == f(Item(d, l, t))
  }

  /** The measure of the item with a given number. */
  function Measure(xs: seq<Item>, f: Item -> int): nat -> int {
    (i: nat) => if i < |xs| then f(xs[i]) else 0
  }

  function SumOver(arr: seq<nat>, xs: seq<Item>, f: Item -> int): int { Total(arr, Measure(xs, f)) }

  /** The sum over the members of the clusters below `m`, among the first `n` vectors. */
  function SumBelow(assign: seq<nat>, n: nat, m: nat, xs: seq<Item>, f: Item -> int): int
    requires n <= |assign|
  {
    if m == 0 then 0
    else SumBelow(assign, n, m - 1, xs, f) + SumOver(Members(assign, m - 1, n), xs, f)
  }

  lemma {:induction false} SumBelowNext(assign: seq<nat>, n: nat, m: nat, xs: seq<Item>, f: Item -> int)
    requires n < |assign| && n < |xs|
    ensures SumBelow(assign, n + 1, m, xs, f)
              == SumBelow(assign, n, m, xs, f) + (if assign[n] < m then f(xs[n]) else 0)
  {
    if m > 0 {
      SumBelowNext(assign, n, m - 1, xs, f);
      var ms := Members(assign, m - 1, n);
      assert (ms + [n])[..|ms|] == ms;
    }
  }

  /** Nothing is lost or counted twice when the vectors are dealt to the clusters. */
  lemma {:induction false} DealtOut(assign: seq<nat>, n: nat, k: nat, xs: seq<Item>, f: Item -> int)
    requires n <= |assign| == |xs| && forall i :: 0 <= i < |assign| ==> assign[i] < k
    ensures SumBelow(assign, n, k, xs, f) == Total(xs[..n], f)
  {
    if n == 0 {
      NothingBelow(assign, k, xs, f);
    } else {
      var m := n - 1;
      DealtOut(assign, m, k, xs, f);
      SumBelowNext(assign, m, k, xs, f);
      assert xs[..n][..m] == xs[..m];
    }
  }

  lemma {:induction false} NothingBelow(assign: seq<nat>, m: nat, xs: seq<Item>, f: Item -> int)
    ensures SumBelow(assign, 0, m, xs, f) == 0
  {
    if m > 0 { NothingBelow(assign, m - 1, xs, f); }
  }

  /** A cluster's items measure the same as its members of the input. */
  lemma {:induction false} ClusterTotal(ix: Index, q: seq<int>, centers: seq<seq<int>>, vecs: seq<seq<int>>,
                                        labels: seq<int>, order: seq<seq<nat>>, c: nat, m: nat, f: Item -> int)
    requires Shape(ix) && |q| == PADDED && Vectors(vecs) && Stores(ix, centers, vecs, labels, order)
    requires c < ix.k && m <= ix.counts[c] && SlotBlind(f)
    ensures |order[c]| == ix.counts[c]
    ensures Total(ClusterItems(ix, q, c)[..m], f) == SumOver(order[c][..m], InputItems(vecs, labels, q), f)
  {
    if m > 0 {
      var n := m - 1;
      ClusterTotal(ix, q, centers, vecs, labels, order, c, n, f);
      assert ClusterItems(ix, q, c)[..m][..n] == ClusterItems(ix, q, c)[..n];
      assert order[c][..m][..n] == order[c][..n];
      ItemOfInput(ix, q, centers, vecs, labels, order, c, n, f);
    }
  }

  lemma ItemOfInput(ix: Index, q: seq<int>, centers: seq<seq<int>>, vecs: seq<seq<int>>, labels: seq<int>,
                    order: seq<seq<nat>>, c: nat, j: nat, f: Item -> int)
    requires Shape(ix) && |q| == PADDED && Vectors(vecs) && Stores(ix, centers, vecs, labels, order)
    requires c < ix.k && j < ix.counts[c] && SlotBlind(f)
    ensures order[c][j] < |vecs|
    ensures f(ClusterItems(ix, q, c)[j]) == f(InputItems(vecs, labels, q)[order[c][j]])
  {
    hide OffsetsOk;
    assert StoresAt(ix, vecs, labels, order, c, j);
    SlotInRange(ix, c, j);
    var x, y := ClusterItems(ix, q, c)[j], InputItems(vecs, labels, q)[order[c][j]];
    assert x == Item(y.dist, y.fraud, x.slot);
  }

  ghost function ClustersTotal(ix: Index, q: seq<int>, n: nat, f: Item -> int): int
    requires Shape(ix) && |q| == PADDED && n <= ix.k
  {
    if n == 0 then 0 else ClustersTotal(ix, q, n - 1, f) + Total(ClusterItems(ix, q, n - 1), f)
  }

  lemma {:induction false} UntakenTotal(ix: Index, q: seq<int>, ci: nat, f: Item -> int)
    requires Shape(ix) && |q| == PADDED && ci <= ix.k
    ensures Clusters(ix, Untaken(ix, {}, ci))
    ensures ClustersTotal(ix, q, ci, f) + Total(Items(ix, q, Untaken(ix, {}, ci)), f) == ClustersTotal(ix, q, ix.k, f)
    decreases ix.k - ci
  {
    hide Items, Clusters, ClusterItems, Total;
    UntakenAre(ix, {}, ci);
    if ci < ix.k {
      var next := ci + 1;
      UntakenTotal(ix, q, next, f);
      assert ClustersTotal(ix, q, next, f) == ClustersTotal(ix, q, ci, f) + Total(ClusterItems(ix, q, ci), f);
      UntakenStep(ix, q, ci, f);
    } else {
      assert Items(ix, q, []) == [] by { NoItems(ix, q); }
      assert Total<Item>([], f) == 0 by { NoTotal(f); }
    }
  }

  lemma NoItems(ix: Index, q: seq<int>)
    requires Shape(ix) && |q| == PADDED
    ensures Clusters(ix, []) && Items(ix, q, []) == []
  {}

  lemma NoTotal(f: Item -> int)
    ensures Total([], f) == 0
  {}

  lemma UntakenStep(ix: Index, q: seq<int>, ci: nat, f: Item -> int)
    requires Shape(ix) && |q| == PADDED && ci < ix.k
    ensures Clusters(ix, Untaken(ix, {}, ci)) && Clusters(ix, Untaken(ix, {}, ci + 1))
    ensures Total(Items(ix, q, Untaken(ix, {}, ci)), f)
         == Total(ClusterItems(ix, q, ci), f) + Total(Items(ix, q, Untaken(ix, {}, ci + 1)), f)
  {
    hide OffsetsOk, Items, Total;
    UntakenAre(ix, {}, ci);
    UntakenAre(ix, {}, ci + 1);
    if ix.counts[ci] == 0 {
      assert ClusterItems(ix, q, ci) == [];
      NoTotal(f);
    } else {
      var rest := Untaken(ix, {}, ci + 1);
      OneCluster(ix, q, ci);
      ItemsConcat(ix, q, [ci], rest);
      TotalConcat(Items(ix, q, [ci]), Items(ix, q, rest), f);
    }
  }

  lemma OneCluster(ix: Index, q: seq<int>, c: nat)
    requires Shape(ix) && |q| == PADDED && c < ix.k && ix.counts[c] > 0
    ensures Clusters(ix, [c]) && Items(ix, q, [c]) == ClusterItems(ix, q, c)
  {
    assert [c][..0] == [];
    assert Items(ix, q, []) == [];
  }

  lemma {:induction false} StoredTotal(ix: Index, q: seq<int>, centers: seq<seq<int>>, vecs: seq<seq<int>>,
                                       labels: seq<int>, assign: seq<nat>, order: seq<seq<nat>>, n: nat, f: Item -> int)
    requires Shape(ix) && |q| == PADDED && Input(ix.k, vecs, labels, assign, order)
    requires Stores(ix, centers, vecs, labels, order) && n <= ix.k && SlotBlind(f)
    ensures ClustersTotal(ix, q, n, f) == SumBelow(assign, |assign|, n, InputItems(vecs, labels, q), f)
  {
    hide OffsetsOk, StoresAt, SlotBlind, InputItems, Measure, Total, Members;
    if n > 0 {
      var c := n - 1;
      StoredTotal(ix, q, centers, vecs, labels, assign, order, c, f);
      ClusterTotal(ix, q, centers, vecs, labels, order, c, ix.counts[c], f);
      assert ClusterItems(ix, q, c)[..ix.counts[c]] == ClusterItems(ix, q, c);
      assert order[c][..ix.counts[c]] == order[c];
      TotalPermuted(order[c], Members(assign, c, |assign|), Measure(InputItems(vecs, labels, q), f));
    }
  }

  /** Conservation: whatever does not look at slots measures the same on the index as on the input. */
  lemma Conserved(ix: Index, q: seq<int>, centers: seq<seq<int>>, vecs: seq<seq<int>>,
                  labels: seq<int>, assign: seq<nat>, order: seq<seq<nat>>, f: Item -> int)
    requires Shape(ix) && |q| == PADDED && Input(ix.k, vecs, labels, assign, order)
    requires Stores(ix, centers, vecs, labels, order) && SlotBlind(f)
    ensures Total(AllItems(ix, q), f) == Total(InputItems(vecs, labels, q), f)
  {
    var xs := InputItems(vecs, labels, q);
    UntakenTotal(ix, q, 0, f);
    StoredTotal(ix, q, centers, vecs, labels, assign, order, ix.k, f);
    hide OffsetsOk, StoresAt, SlotBlind, Items, InputItems, Total;
    DealtOut(assign, |assign|, ix.k, xs, f);
    assert xs[..|assign|] == xs;
  }

  lemma SameCountsSameDistances(xs: seq<Item>, ys: seq<Item>, i: nat)
    requires Finite(xs) && Finite(ys) && i < TOP_K
    requires forall d :: Total(xs, Below(d)) == Total(ys, Below(d))
    ensures Scan(EMPTY, xs)[i].dist == Scan(EMPTY, ys)[i].dist
  {
    var x, y := Scan(EMPTY, xs)[i].dist, Scan(EMPTY, ys)[i].dist;
    EmptySorted();
    AtMostMax(xs, i);
    AtMostMax(ys, i);
    hide Scan, Finite, Total;
    ScanCount(xs, x, i);
    ScanCount(ys, x, i);
    ScanCount(xs, y, i);
    ScanCount(ys, y, i);
    assert Total(xs, Below(x)) == Total(ys, Below(x)) && Total(xs, Below(y)) == Total(ys, Below(y));
  }

  lemma AtMostMax(xs: seq<Item>, i: nat)
    requires Finite(xs) && i < TOP_K
    ensures Scan(EMPTY, xs)[i].dist <= I64_MAX
  {
    ScanIsFirstFive(xs);
    StableSortFinite(xs);
    FirstFiveAt(StableSort(xs), i);
  }

  lemma InputFinite(vecs: seq<seq<int>>, labels: seq<int>, q: seq<int>)
    requires Vectors(vecs) && |labels| == |vecs| && Query(q)
    ensures Finite(InputItems(vecs, labels, q))
  {
    forall i | 0 <= i < |vecs| ensures InputItems(vecs, labels, q)[i].dist < I64_MAX {
      PartialDistBound(q, vecs[i], PADDED);
    }
  }

  /** An index holding the input finds, with a plain scan, the five distances of the input. */
  lemma StoredDistances(ix: Index, q: seq<int>, centers: seq<seq<int>>, vecs: seq<seq<int>>,
                        labels: seq<int>, assign: seq<nat>, order: seq<seq<nat>>, i: nat)
    requires WF(ix) && Query(q) && Input(ix.k, vecs, labels, assign, order)
    requires Stores(ix, centers, vecs, labels, order) && i < TOP_K
    ensures Scan(EMPTY, AllItems(ix, q))[i].dist == Scan(EMPTY, InputItems(vecs, labels, q))[i].dist
  {
    var all, xs := AllItems(ix, q), InputItems(vecs, labels, q);
    ItemsRange(ix, q, AllClusters(ix));
    InputFinite(vecs, labels, q);
    forall d ensures Total(all, Below(d)) == Total(xs, Below(d)) {
      Conserved(ix, q, centers, vecs, labels, assign, order, Below(d));
    }
    SameCountsSameDistances(all, xs, i);
  }

  /** The five smallest distances of the input. */
  ghost predicate DistancesOfInput(vecs: seq<seq<int>>, labels: seq<int>, q: seq<int>, best: seq<Item>)
    requires Vectors(vecs) && |labels| == |vecs| && |q| == PADDED && |best| == TOP_K
  {
    forall i :: 0 <= i < TOP_K ==> best[i].dist == Scan(EMPTY, InputItems(vecs, labels, q))[i].dist
  }

  /** The score of the input: where `d` bounds five input vectors, it counts their frauds. */
  ghost predicate ScoreOfInput(vecs: seq<seq<int>>, labels: seq<int>, q: seq<int>, frauds: int)
    requires Vectors(vecs) && |labels| == |vecs| && |q| == PADDED
  {
    var xs := InputItems(vecs, labels, q);
    forall d :: d <= I64_MAX && Total(xs, Below(d)) == TOP_K ==> frauds == Total(xs, FraudBelow(d))
  }

  /**
   * From the input to the answer: on an index that holds the input, a search keeps the five smallest distances of the
   * input if and only if its guard holds, and then its score is that of the input.
   */
  lemma AnswerForInput(ix: Index, q: seq<int>, centers: seq<seq<int>>, vecs: seq<seq<int>>,
                       labels: seq<int>, assign: seq<nat>, order: seq<seq<nat>>)
    requires WF(ix) && Query(q) && Input(ix.k, vecs, labels, assign, order)
    requires Stores(ix, centers, vecs, labels, order)
    ensures InIndex(ix, ProbesOf(ix, q))
    ensures DistancesOfInput(vecs, labels, q, Run(ix, q).state.best) <==> Guard(ix, q, ProbesOf(ix, q))
    ensures Guard(ix, q, ProbesOf(ix, q)) ==> ScoreOfInput(vecs, labels, q, Frauds(Run(ix, q).state.best))
  {
    hide WF, Query, Run, Guard, InIndex, ProbesOf, AllItems, Scan, Frauds, Stores, InputItems;
    Shaped(ix, q);
    ExactIffGuard(ix, q);
    forall i | 0 <= i < TOP_K
      ensures Scan(EMPTY, AllItems(ix, q))[i].dist == Scan(EMPTY, InputItems(vecs, labels, q))[i].dist
    {
      StoredDistances(ix, q, centers, vecs, labels, assign, order, i);
    }
    if Exact(ix, q) {
      forall d | d <= I64_MAX && Total(InputItems(vecs, labels, q), Below(d)) == TOP_K
        ensures Frauds(Run(ix, q).state.best) == Total(InputItems(vecs, labels, q), FraudBelow(d))
      {
        Conserved(ix, q, centers, vecs, labels, assign, order, Below(d));
        Conserved(ix, q, centers, vecs, labels, assign, order, FraudBelow(d));
        ExactFraudsBelow(ix, q, d);
      }
    }
  }
}
