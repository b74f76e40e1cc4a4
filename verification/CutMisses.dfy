/**
 * A run that is cut can miss: ten vectors in three clusters, each with its nearest center, and any number of empty
 * clusters besides. The repair over probes stops one cluster short, and the full repair then skips that cluster
 * because it was a probe.
 */
module CutMisses {
  import opened Sequences
  import opened Machine
  import opened Geometry
  import opened BlockLayout
  import opened TopFive
  import opened ProbeHeap
  import opened SeenMask
  import opened Index
  import opened SearchSpec
  import opened Exactness
  import opened BruteForce
  import opened Builder
  import opened EndToEnd
  import Search

  /** A vector that is zero after its first two dimensions. */
  function Point(x: int, y: int): (v: seq<int>)
    ensures |v| == PADDED
  {
    seq(PADDED, j => if j == 0 then x else if j == 1 then y else 0)
  }

  lemma {:induction false} PointDistance(a: int, b: int, c: int, d: int, n: nat)
    requires 2 <= n <= PADDED
    ensures PartialDist(Point(a, b), Point(c, d), n) == Square(a - c) + Square(b - d)
  {
    if n > 2 {
      PointDistance(a, b, c, d, n - 1);
    } else {
      assert PartialDist(Point(a, b), Point(c, d), 1) == Square(a - c);
    }
  }

  // ---- the input ----

  /** Where the vectors of cluster `c` are, what they are labelled, and where its center is. */
  function Spot(c: nat): (v: seq<int>)
    ensures |v| == PADDED
  {
    if c == 0 then Point(3, 0) else if c == 1 then Point(-3, 0) else Point(0, 1)
  }

  function Mark(c: nat): int { if c == 2 then 1 else 0 }

  function CenterOf(c: nat): (v: seq<int>)
    ensures |v| == PADDED
  {
    if c == 0 then Point(3, 0) else if c == 1 then Point(-3, -1) else if c == 2 then Point(0, 4) else Point(9000, 0)
  }

  function Size(c: nat): nat { if c == 0 then 4 else if c == 1 then 1 else if c == 2 then 5 else 0 }

  /** Four legitimate vectors in cluster 0, one in cluster 1, five frauds in cluster 2. */
  ghost predicate TrapInput(centers: seq<seq<int>>, vecs: seq<seq<int>>, labels: seq<int>, order: seq<seq<nat>>) {
    && |centers| == |order| >= 3 && |labels| == |vecs|
    && (forall c :: 0 <= c < 3 ==> centers[c] == CenterOf(c))
    && (forall c :: 0 <= c < |order| ==> |order[c]| == Size(c))
    && (forall c, j :: 0 <= c < 3 && 0 <= j < Size(c) ==>
          order[c][j] < |vecs| && vecs[order[c][j]] == Spot(c) && labels[order[c][j]] == Mark(c))
  }

  // ---- the index ----

  /** What the counterexample needs of an index and a query. */
  ghost predicate Trap(ix: Index, q: seq<int>)
    requires Shape(ix) && |q| == PADDED
  {
    && ix.k >= 3 && (forall c :: 0 <= c < ix.k ==> ix.counts[c] == Size(c))
    && Candidate(ix, q, 0) == Probe(0, 9) && Candidate(ix, q, 1) == Probe(1, 10) && Candidate(ix, q, 2) == Probe(2, 16)
    && (forall j :: 0 <= j < 4 ==> LooksLike(ClusterItems(ix, q, 0)[j], 9, 0))
    && (forall j :: 0 <= j < 1 ==> LooksLike(ClusterItems(ix, q, 1)[j], 9, 0))
    && (forall j :: 0 <= j < 5 ==> LooksLike(ClusterItems(ix, q, 2)[j], 1, 1))
  }

  predicate LooksLike(x: Item, dist: int, fraud: int) { x.dist == dist && x.fraud == fraud }

  lemma Distances(q: seq<int>)
    requires q == Point(0, 0)
    ensures Dist(q, CenterOf(0)) == 9 && Dist(q, CenterOf(1)) == 10 && Dist(q, CenterOf(2)) == 16
    ensures Dist(q, Spot(0)) == 9 && Dist(q, Spot(1)) == 9 && Dist(q, Spot(2)) == 1
  {
    hide Point;
    PointDistance(0, 0, 3, 0, PADDED);
    PointDistance(0, 0, -3, -1, PADDED);
    PointDistance(0, 0, 0, 4, PADDED);
    PointDistance(0, 0, -3, 0, PADDED);
    PointDistance(0, 0, 0, 1, PADDED);
  }

  /** Any index that stores such an input is the trap. */
  lemma IsTrap(ix: Index, q: seq<int>, centers: seq<seq<int>>, vecs: seq<seq<int>>, labels: seq<int>,
               order: seq<seq<nat>>)
    requires Shape(ix) && Stores(ix, centers, vecs, labels, order) && TrapInput(centers, vecs, labels, order)
    requires q == Point(0, 0)
    ensures Trap(ix, q)
  {
    hide OffsetsOk, Point, Spot, CenterOf, Dist, StoresAt;
    Distances(q);
    assert |q| == PADDED && ix.k == |order|;
    forall c | 0 <= c < ix.k ensures ix.counts[c] == Size(c) {}
    forall c, j | 0 <= c < 3 && 0 <= j < Size(c)
      ensures LooksLike(ClusterItems(ix, q, c)[j], Dist(q, Spot(c)), Mark(c))
    {
      ItemStored(ix, q, centers, vecs, labels, order, c, j);
    }
    CandidateStored(ix, q, centers, vecs, labels, order, 0);
    CandidateStored(ix, q, centers, vecs, labels, order, 1);
    CandidateStored(ix, q, centers, vecs, labels, order, 2);
  }

  lemma ItemStored(ix: Index, q: seq<int>, centers: seq<seq<int>>, vecs: seq<seq<int>>, labels: seq<int>,
                   order: seq<seq<nat>>, c: nat, j: nat)
    requires Shape(ix) && Stores(ix, centers, vecs, labels, order) && |q| == PADDED
    requires c < ix.k && j < ix.counts[c]
    ensures |order[c]| == ix.counts[c] && order[c][j] < |vecs| && |vecs[order[c][j]]| == PADDED
    ensures order[c][j] < |labels|
    ensures var x := ClusterItems(ix, q, c)[j];
            x.dist == Dist(q, vecs[order[c][j]]) && x.fraud == labels[order[c][j]]
  {
    hide OffsetsOk;
    assert StoresAt(ix, vecs, labels, order, c, j);
    SlotInRange(ix, c, j);
  }

  lemma CandidateStored(ix: Index, q: seq<int>, centers: seq<seq<int>>, vecs: seq<seq<int>>, labels: seq<int>,
                        order: seq<seq<nat>>, c: nat)
    requires Shape(ix) && Stores(ix, centers, vecs, labels, order) && |q| == PADDED && c < ix.k
    ensures |centers| == ix.k && |centers[c]| == PADDED && Candidate(ix, q, c) == Probe(c, Dist(q, centers[c]))
  {
    hide OffsetsOk, StoresAt;
  }

  lemma {:induction false} CandidatesStay(ix: Index, q: seq<int>, n: nat)
    requires Shape(ix) && |q| == PADDED && Trap(ix, q) && 3 <= n <= ix.k
    ensures Candidates(ix, q, n) == Candidates(ix, q, 3)
  {
    hide Candidate, OffsetsOk, LooksLike;
    if n > 3 { CandidatesStay(ix, q, n - 1); }
  }

  lemma ThreeCandidates(ix: Index, q: seq<int>)
    requires Shape(ix) && |q| == PADDED && Trap(ix, q)
    ensures Candidates(ix, q, ix.k) == [Probe(0, 9), Probe(1, 10), Probe(2, 16)]
  {
    hide Candidate, OffsetsOk, LooksLike;
    assert Candidates(ix, q, 0) == [];
    assert Candidates(ix, q, 1) == [Probe(0, 9)];
    assert Candidates(ix, q, 2) == [Probe(0, 9), Probe(1, 10)];
    assert Candidates(ix, q, 3) == [Probe(0, 9), Probe(1, 10), Probe(2, 16)];
    CandidatesStay(ix, q, ix.k);
  }

  lemma OnlyOrder(ps: seq<Probe>, a: Probe, b: Probe, c: Probe)
    requires AscendingFrom(ps, 0) && multiset(ps) == multiset([a, b, c]) && a.dist < b.dist < c.dist
    ensures ps == [a, b, c]
  {
    assert |multiset(ps)| == |ps| && |multiset([a, b, c])| == 3;
    assert ps == [ps[0], ps[1], ps[2]];
    assert ps[0] in multiset(ps) && ps[1] in multiset(ps) && ps[2] in multiset(ps);
    assert a in multiset(ps) && b in multiset(ps) && c in multiset(ps);
  }

  /** The clusters come in the order 0, 1, 2. */
  lemma ThreeProbes(ix: Index, q: seq<int>)
    requires Shape(ix) && |q| == PADDED && Trap(ix, q)
    ensures ProbesOf(ix, q) == [Probe(0, 9), Probe(1, 10), Probe(2, 16)]
  {
    ThreeCandidates(ix, q);
    ProbesProper(ix, q);
    var cands := Candidates(ix, q, ix.k);
    SmallSelectDropsNothing(cands);
    hide ProbesOf, Candidates, Dropped;
    OnlyOrder(ProbesOf(ix, q), Probe(0, 9), Probe(1, 10), Probe(2, 16));
  }

  lemma {:induction false} TotalOfAlike(xs: seq<Item>, f: Item -> int, v: int)
    requires forall i :: 0 <= i < |xs| ==> f(xs[i]) == v
    ensures Total(xs, f) == |xs| * v
  {
    if xs != [] { TotalOfAlike(xs[..|xs| - 1], f, v); }
  }

  /** After clusters 0 and 1 the five are all legitimate, nine away. */
  lemma AfterTwo(ix: Index, q: seq<int>, st: State)
    requires WF(ix) && Query(q) && Trap(ix, q) && Sound(ix, q, st) && st.covered == [0, 1]
    ensures Frauds(st.best) == 0 && Threshold(st.best) == 9
  {
    hide WF, Query, Shape, Items, Trap, DistinctStored, LooksLike, NearestOf, LeftOver, Total;
    Shaped(ix, q);
    TwoClusters(ix, q);
    SoundIsStored(ix, q, st);
    FiveAlike(st.best, Items(ix, q, [0, 1]));
  }

  lemma FiveAlike(best: seq<Item>, xs: seq<Item>)
    requires DistinctStored(best, xs) && |xs| == 5 && forall x :: x in xs ==> LooksLike(x, 9, 0)
    ensures |best| == TOP_K && Frauds(best) == 0 && Threshold(best) == 9
  {
    hide DifferentSlots;
    assert best[..TOP_K] == best;
    forall i | 0 <= i < TOP_K ensures LooksLike(best[i], 9, 0) {
      assert best[i] in multiset(best);
      assert best[i] in multiset(xs);
    }
    TotalOfAlike(best, Fraud(), 0);
  }

  lemma TwoClusters(ix: Index, q: seq<int>)
    requires WF(ix) && Query(q) && Trap(ix, q)
    ensures Clusters(ix, [0, 1]) && |Items(ix, q, [0, 1])| == 5
    ensures forall x :: x in Items(ix, q, [0, 1]) ==> LooksLike(x, 9, 0)
  {
    hide BoxOk, OffsetsOk, LooksLike, Bounded;
    assert [0, 1][..1] == [0];
    OneCluster(ix, q, 0);
    assert Items(ix, q, [0, 1]) == ClusterItems(ix, q, 0) + ClusterItems(ix, q, 1);
  }

  /** The run: cluster 0, then cluster 1, and there it stops; the full repair finds nothing left to cover. */
  lemma TrapRun(ix: Index, q: seq<int>)
    requires WF(ix) && Query(q) && Trap(ix, q)
    ensures Run(ix, q).exit.AfterFull? && Run(ix, q).state.cut && Frauds(Run(ix, q).state.best) == 0
  {
    var ps := ProbesOf(ix, q);
    ThreeProbes(ix, q);
    ProbesProper(ix, q);
    hide ProbesOf, Candidate, OffsetsOk, BoxOk, Bounded, Taken, Trap;
    TrapRunWith(ix, q, ps);
  }

  lemma TrapRunWith(ix: Index, q: seq<int>, ps: seq<Probe>)
    requires WF(ix) && Query(q) && Trap(ix, q) && ProperProbes(ix, q, ps)
    requires |ps| == 3 && ps[0].cluster == 0 && ps[1].cluster == 1 && ps[2].cluster == 2
    ensures var r := RunWith(ix, q, ps);
            r.exit.AfterFull? && r.state.cut && Frauds(r.state.best) == 0
  {
    hide Sound, Frauds, OffsetsOk, BoxOk, Bounded, Candidate, LooksLike, Taken, RunWith, Initial, PruneOrScan;
    var first := Initial(ix, q, ps, 1);
    InitialCovers(ix, q, ps, 1);
    assert ClustersOf(ps, 1) == [0];
    FirstIsOpen(ix, q, first);
    var second := PruneOrScan(ix, q, first, 1);
    StepSound(ix, q, first, 1);
    assert second.covered == [0, 1];
    AfterTwo(ix, q, second);
    AllThreeTaken(ps);
    TrapSteps(ix, q, ps, first, second);
  }

  lemma AllThreeTaken(ps: seq<Probe>)
    requires |ps| == 3 && ps[0].cluster == 0 && ps[1].cluster == 1 && ps[2].cluster == 2
    ensures forall c :: 0 <= c < 3 ==> c in Taken(ps)
  {
    hide Taken;
    TakenAre(ps);
    assert forall c :: 0 <= c < 3 ==> ps[c].cluster == c;
  }

  /** Four vectors do not fill the five, so every bound is below the threshold. */
  lemma FirstIsOpen(ix: Index, q: seq<int>, first: State)
    requires WF(ix) && Query(q) && Trap(ix, q) && Sound(ix, q, first) && first.covered == [0]
    ensures Threshold(first.best) == I64_MAX && Frauds(first.best) == 0 && Bound(ix, q, 1) < I64_MAX
  {
    OneCluster(ix, q, 0);
    var xs := Items(ix, q, [0]);
    SoundIsStored(ix, q, first);
    BoundSound(ix, q, 1, 0);
    hide BoxOk, OffsetsOk, Items, Bound, Bounded;
    forall i | 0 <= i < TOP_K ensures Fraud()(first.best[i]) == 0 {
      if i < 4 {
        assert first.best[..4][i] == first.best[i];
        assert first.best[i] in multiset(first.best[..4]);
        assert first.best[i] in multiset(xs);
      }
    }
    TotalOfAlike(first.best, Fraud(), 0);
  }

  lemma TrapSteps(ix: Index, q: seq<int>, ps: seq<Probe>, first: State, second: State)
    requires Shape(ix) && |q| == PADDED && ix.k >= 3 && |ps| == 3 && ps[1].cluster == 1
    requires forall c :: 3 <= c < ix.k ==> ix.counts[c] == 0
    requires ValidProbes(ix, ps) && forall i :: 0 <= i < |ps| ==> ps[i].cluster != U32_MAX
    requires forall c :: 0 <= c < 3 ==> c in Taken(ps)
    requires first == Initial(ix, q, ps, 1) && Threshold(first.best) == I64_MAX && Frauds(first.best) == 0
    requires Bound(ix, q, 1) < I64_MAX && second == PruneOrScan(ix, q, first, 1)
    requires Frauds(second.best) == 0 && Threshold(second.best) == 9
    ensures RunWith(ix, q, ps) == Outcome(second.(cut := true), AfterFull)
  {
    hide Frauds, Initial, PruneOrScan, Bound, OffsetsOk, Taken, Full;
    var end := second.(cut := true);
    assert Fast(ix, q, ps, 1, first) == end;
    NothingLeft(ix, q, Taken(ps), 0, end);
  }

  lemma {:induction false} NothingLeft(ix: Index, q: seq<int>, taken: set<int>, ci: nat, st: State)
    requires Shape(ix) && |q| == PADDED && |st.best| == TOP_K
    requires forall c :: ci <= c < ix.k ==> ix.counts[c] == 0 || c in taken
    ensures Full(ix, q, taken, ci, st) == st
    decreases ix.k - ci
  {
    hide OffsetsOk;
    if ci < ix.k { NothingLeft(ix, q, taken, ci + 1, st); }
  }

  /** A plain scan of the ten vectors answers five: they are the five within nine. */
  lemma TrapTruth(ix: Index, q: seq<int>)
    requires WF(ix) && Query(q) && Trap(ix, q)
    ensures Frauds(Scan(EMPTY, AllItems(ix, q))) == TOP_K
    ensures Total(AllItems(ix, q), Below(9)) == TOP_K == Total(AllItems(ix, q), FraudBelow(9))
  {
    hide Items, WF, Query, Trap, ClustersTotal, Scan, Total, AllItems, Finite;
    Shaped(ix, q);
    AllRange(ix, q);
    TrapTotal(ix, q, Below(9), 0, 1);
    TrapTotal(ix, q, FraudBelow(9), 0, 1);
    FraudsOfFive(AllItems(ix, q), 9);
  }

  lemma TrapTotal(ix: Index, q: seq<int>, f: Item -> int, u: int, v: int)
    requires WF(ix) && Query(q) && Trap(ix, q)
    requires forall x :: LooksLike(x, 9, 0) ==> f(x) == u
    requires forall x :: LooksLike(x, 1, 1) ==> f(x) == v
    ensures Total(AllItems(ix, q), f) == 5 * u + 5 * v
  {
    hide Items, WF, Query, Trap, Total, Untaken, LooksLike;
    Shaped(ix, q);
    ThreeTotals(ix, q, f, u, v);
    EmptyTotals(ix, q, f, ix.k);
    UntakenTotal(ix, q, 0, f);
  }

  lemma ThreeTotals(ix: Index, q: seq<int>, f: Item -> int, u: int, v: int)
    requires WF(ix) && Query(q) && Trap(ix, q)
    requires forall x :: LooksLike(x, 9, 0) ==> f(x) == u
    requires forall x :: LooksLike(x, 1, 1) ==> f(x) == v
    ensures ix.k >= 3 && ClustersTotal(ix, q, 3, f) == 5 * u + 5 * v && ClustersTotal(ix, q, 0, f) == 0
  {
    hide BoxOk, OffsetsOk, Bounded, LooksLike;
    TotalOfAlike(ClusterItems(ix, q, 0), f, u);
    TotalOfAlike(ClusterItems(ix, q, 1), f, u);
    TotalOfAlike(ClusterItems(ix, q, 2), f, v);
    assert ClustersTotal(ix, q, 1, f) == 4 * u;
    assert ClustersTotal(ix, q, 2, f) == 5 * u;
  }

  lemma {:induction false} EmptyTotals(ix: Index, q: seq<int>, f: Item -> int, n: nat)
    requires Shape(ix) && |q| == PADDED && Trap(ix, q) && 3 <= n <= ix.k
    ensures ClustersTotal(ix, q, n, f) == ClustersTotal(ix, q, 3, f)
  {
    hide OffsetsOk, LooksLike, Candidate;
    if n > 3 {
      EmptyTotals(ix, q, f, n - 1);
      assert ClusterItems(ix, q, n - 1) == [];
    }
  }

  /**
   * A cut run can answer zero where the five nearest are all fraud: on every well-formed index of such an input,
   * however many empty clusters it has.
   */
  lemma CutCanMiss(ix: Index, q: seq<int>, centers: seq<seq<int>>, vecs: seq<seq<int>>, labels: seq<int>,
                   order: seq<seq<nat>>)
    requires WF(ix) && Stores(ix, centers, vecs, labels, order) && TrapInput(centers, vecs, labels, order)
    requires q == Point(0, 0)
    ensures Query(q) && Run(ix, q).exit.AfterFull? && Run(ix, q).state.cut
    ensures Frauds(Run(ix, q).state.best) == 0
    ensures Frauds(Scan(EMPTY, AllItems(ix, q))) == TOP_K
    ensures Total(AllItems(ix, q), Below(9)) == TOP_K == Total(AllItems(ix, q), FraudBelow(9))
  {
    assert Query(q) && Shape(ix);
    hide Point, WF, Query, Shape, Run, AllItems, Frauds, Trap, Scan, TrapInput, Stores, Total;
    IsTrap(ix, q, centers, vecs, labels, order);
    TrapRun(ix, q);
    TrapTruth(ix, q);
  }

  // ---- built by the builder ----

  function ClusterOf(i: nat): nat { if i < 4 then 0 else if i < 5 then 1 else 2 }

  function TenVectors(): (vecs: seq<seq<int>>)
    ensures |vecs| == 10
  {
    seq(10, i requires 0 <= i < 10 => Spot(ClusterOf(i)))
  }

  function TenLabels(): seq<int> { seq(10, i requires 0 <= i < 10 => Mark(ClusterOf(i))) }

  function TenClusters(): seq<nat> { seq(10, i requires 0 <= i < 10 => ClusterOf(i)) }

  function Centers(k: nat): (cs: seq<seq<int>>)
    ensures |cs| == k
  {
    seq(k, c requires 0 <= c < k => CenterOf(c))
  }

  lemma TenGiven(k: nat)
    requires k >= 3
    ensures Given(k, TenVectors(), TenLabels(), TenClusters()) && Vectors(Centers(k))
  {}

  lemma {:induction false} MembersCount(c: nat, n: nat)
    requires n <= 10
    ensures |Members(TenClusters(), c, n)| ==
              if c == 0 then (if n < 4 then n else 4) else if c == 1 then (if n < 5 then 0 else 1)
              else if c == 2 then (if n < 5 then 0 else n - 5) else 0
  {
    if n > 0 { MembersCount(c, n - 1); }
  }

  lemma TenIsTrap(k: nat, order: seq<seq<nat>>)
    requires k >= 3 && Input(k, TenVectors(), TenLabels(), TenClusters(), order)
    ensures TrapInput(Centers(k), TenVectors(), TenLabels(), order)
  {
    hide Point, Members, Vectors, Given;
    forall c | 0 <= c < k ensures |order[c]| == Size(c) {
      MembersCount(c, 10);
      SameSize(order[c], Members(TenClusters(), c, 10));
    }
    forall c, j | 0 <= c < 3 && 0 <= j < Size(c)
      ensures order[c][j] < 10 && TenVectors()[order[c][j]] == Spot(c) && TenLabels()[order[c][j]] == Mark(c)
    {
      MembersBelow(TenClusters(), c, 10);
      assert order[c][j] in multiset(order[c]);
      assert order[c][j] in multiset(Members(TenClusters(), c, 10));
      assert TenClusters()[order[c][j]] == c;
    }
  }

  /** Each of the ten vectors is nearer to the center of its cluster than to any other, as the builder assigns it. */
  lemma NearestCenter(k: nat, i: nat, d: nat)
    requires k >= 3 && i < 10 && d < k && d != ClusterOf(i)
    ensures Dist(TenVectors()[i], Centers(k)[ClusterOf(i)]) < Dist(TenVectors()[i], Centers(k)[d])
  {
    hide Point;
    var c := ClusterOf(i);
    CenterDistance(c, c);
    CenterDistance(c, d);
  }

  lemma CenterDistance(c: nat, d: nat)
    requires c < 3
    ensures Dist(Spot(c), CenterOf(d)) ==
              if c == 0 then (if d == 0 then 0 else if d == 1 then 37 else if d == 2 then 25 else 80_946_009)
              else if c == 1 then (if d == 0 then 36 else if d == 1 then 1 else if d == 2 then 25 else 81_054_009)
              else (if d == 0 then 10 else if d == 1 then 13 else if d == 2 then 9 else 81_000_001)
  {
    hide Point;
    if c == 0 {
      FromSpot(3, 0, d);
    } else if c == 1 {
      FromSpot(-3, 0, d);
    } else {
      FromSpot(0, 1, d);
    }
  }

  lemma FromSpot(x: int, y: int, d: nat)
    ensures Dist(Point(x, y), CenterOf(d)) ==
              if d == 0 then Square(x - 3) + Square(y) else if d == 1 then Square(x + 3) + Square(y + 1)
              else if d == 2 then Square(x) + Square(y - 4) else Square(x - 9000) + Square(y)
  {
    hide Point, Square;
    if d == 0 {
      PointDistance(x, y, 3, 0, PADDED);
    } else if d == 1 {
      PointDistance(x, y, -3, -1, PADDED);
    } else if d == 2 {
      PointDistance(x, y, 0, 4, PADDED);
    } else {
      PointDistance(x, y, 9000, 0, PADDED);
    }
  }

  /** Built and searched by either build, with up to 4096 clusters: the answer is 0, and that of the input is 5. */
  method BuiltIndexMisses(build: Search.Build, k: nat, distance: (nat, nat) -> real)
    returns (ix: Index, frauds: int)
    requires 3 <= k <= 4096
    ensures WF(ix) && ix.k == k && frauds == Frauds(Run(ix, Point(0, 0)).state.best) == 0
    ensures Frauds(Scan(EMPTY, AllItems(ix, Point(0, 0)))) == TOP_K
    ensures Total(AllItems(ix, Point(0, 0)), Below(9)) == TOP_K == Total(AllItems(ix, Point(0, 0)), FraudBelow(9))
  {
    hide Given, WF, Stores, Input, Run, AllItems, Scan, Frauds, Total, TrapInput, NearestFirst;
    TenGiven(k);
    var order;
    ix, order := Build(k, Centers(k), TenVectors(), TenLabels(), TenClusters(), distance);
    TenIsTrap(k, order);
    var q := Point(0, 0);
    CutCanMiss(ix, q, Centers(k), TenVectors(), TenLabels(), order);
    frauds := Search.ScoreQ(build, ix, q);
  }
}
