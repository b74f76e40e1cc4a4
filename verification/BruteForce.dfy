/** The search against a plain scan of every stored vector. */
module BruteForce {
  import opened Sequences
  import opened Machine
  import opened Geometry
  import opened BlockLayout
  import opened TopFive
  import opened ProbeHeap
  import opened SeenMask
  import opened Index
  import opened SearchSpec
  import opened Exactness

  lemma {:induction false} UntakenAre(ix: Index, taken: set<int>, ci: nat)
    requires Shape(ix)
    ensures Clusters(ix, Untaken(ix, taken, ci)) && Distinct(Untaken(ix, taken, ci))
    ensures forall c :: c in Untaken(ix, taken, ci) <==> ci <= c < ix.k && ix.counts[c] > 0 && c !in taken
    decreases ix.k - ci
  {
    hide OffsetsOk;
    if ci < ix.k {
      UntakenAre(ix, taken, ci + 1);
      var rest := Untaken(ix, taken, ci + 1);
      hide Distinct;
      PrependDistinct(ci, rest);
    }
  }

  lemma PrependDistinct(c: int, cs: seq<int>)
    requires Distinct(cs)
    ensures c !in cs ==> Distinct([c] + cs)
    ensures forall x :: x in [c] + cs <==> x == c || x in cs
  {}

  /** Every nonempty cluster, in order. */
  ghost function AllClusters(ix: Index): (cs: seq<int>)
    requires Shape(ix)
    ensures Clusters(ix, cs) && Distinct(cs)
    ensures forall c :: c in cs <==> 0 <= c < ix.k && ix.counts[c] > 0
  {
    UntakenAre(ix, {}, 0);
    Untaken(ix, {}, 0)
  }

  /** Every stored vector as the query sees it, cluster after cluster. */
  ghost function AllItems(ix: Index, q: seq<int>): seq<Item>
    requires Shape(ix) && |q| == PADDED
  {
    Items(ix, q, AllClusters(ix))
  }

  /** The nonempty clusters a run did not look at. */
  ghost function Missed(ix: Index, covered: seq<int>): (cs: seq<int>)
    requires Shape(ix)
    ensures Clusters(ix, cs) && Distinct(cs)
    ensures forall c :: c in cs <==> 0 <= c < ix.k && ix.counts[c] > 0 && c !in covered
  {
    UntakenAre(ix, set c | c in covered, 0);
    Untaken(ix, set c | c in covered, 0)
  }

  lemma {:induction false} DistinctCount(cs: seq<int>, c: int)
    requires Distinct(cs)
    ensures multiset(cs)[c] == if c in cs then 1 else 0
  {
    if cs != [] {
      var rest, last := cs[..|cs| - 1], cs[|cs| - 1];
      DistinctCount(rest, c);
      assert cs == rest + [last];
      assert multiset(cs) == multiset(rest) + multiset{last};
    }
  }

  lemma SameClusters(cs: seq<int>, ds: seq<int>)
    requires Distinct(cs) && Distinct(ds) && forall c :: c in cs <==> c in ds
    ensures multiset(cs) == multiset(ds)
  {
    forall c ensures multiset(cs)[c] == multiset(ds)[c] {
      DistinctCount(cs, c);
      DistinctCount(ds, c);
    }
  }

  lemma {:induction false} ItemsConcat(ix: Index, q: seq<int>, cs: seq<int>, ds: seq<int>)
    requires Shape(ix) && |q| == PADDED && Clusters(ix, cs) && Clusters(ix, ds)
    ensures Clusters(ix, cs + ds) && Items(ix, q, cs + ds) == Items(ix, q, cs) + Items(ix, q, ds)
  {
    hide Shape;
    if ds == [] {
      assert cs + ds == cs;
    } else {
      var rest := ds[..|ds| - 1];
      assert (cs + ds)[..|cs + ds| - 1] == cs + rest;
      ItemsConcat(ix, q, cs, rest);
    }
  }

  lemma MiddleItems(ix: Index, q: seq<int>, a: seq<int>, c: int, b: seq<int>)
    requires Shape(ix) && |q| == PADDED && Clusters(ix, a + [c] + b)
    ensures Clusters(ix, a + b) && Clusters(ix, [c])
    ensures multiset(Items(ix, q, a + [c] + b)) == multiset(Items(ix, q, a + b)) + multiset(Items(ix, q, [c]))
  {
    hide Shape, Items;
    assert forall i :: 0 <= i < |a| ==> (a + [c] + b)[i] == a[i];
    assert (a + [c] + b)[|a|] == c;
    assert forall i :: 0 <= i < |b| ==> (a + [c] + b)[|a| + 1 + i] == b[i];
    ItemsConcat(ix, q, a, [c]);
    ItemsConcat(ix, q, a + [c], b);
    ItemsConcat(ix, q, a, b);
  }

  /** Which vectors are seen depends only on which clusters are covered. */
  lemma {:induction false} ItemsPermuted(ix: Index, q: seq<int>, cs: seq<int>, ds: seq<int>)
    requires Shape(ix) && |q| == PADDED && Clusters(ix, cs) && Clusters(ix, ds) && multiset(cs) == multiset(ds)
    ensures multiset(Items(ix, q, cs)) == multiset(Items(ix, q, ds))
    decreases |cs|
  {
    hide Shape, Items;
    assert |multiset(cs)| == |cs| && |multiset(ds)| == |ds|;
    if cs == [] {
      assert ds == [];
    } else {
      var rest, c := cs[..|cs| - 1], cs[|cs| - 1];
      assert cs == rest + [c] + [];
      assert rest + [] == rest;
      var k := RemoveOne(ds, c);
      assert multiset(rest) == multiset(cs) - multiset{c};
      MiddleItems(ix, q, rest, c, []);
      MiddleItems(ix, q, ds[..k], c, ds[k + 1..]);
      ItemsPermuted(ix, q, rest, ds[..k] + ds[k + 1..]);
    }
  }

  lemma CoveredAndMissed(ix: Index, q: seq<int>, covered: seq<int>)
    requires Shape(ix) && |q| == PADDED && Clusters(ix, covered) && Distinct(covered)
    ensures multiset(Items(ix, q, covered) + Items(ix, q, Missed(ix, covered))) == multiset(AllItems(ix, q))
  {
    var missed := Missed(ix, covered);
    hide Shape, Items, Missed, AllClusters;
    assert Distinct(covered + missed);
    SameClusters(covered + missed, AllClusters(ix));
    ItemsConcat(ix, q, covered, missed);
    ItemsPermuted(ix, q, covered + missed, AllClusters(ix));
  }

  lemma {:induction false} ItemsRange(ix: Index, q: seq<int>, cs: seq<int>)
    requires WF(ix) && Query(q) && Clusters(ix, cs)
    ensures Finite(Items(ix, q, cs))
    ensures forall i :: 0 <= i < |Items(ix, q, cs)| ==> Items(ix, q, cs)[i].fraud == 0 || Items(ix, q, cs)[i].fraud == 1
  {
    hide BoxOk, OffsetsOk, Bounded;
    if cs != [] {
      ItemsRange(ix, q, cs[..|cs| - 1]);
      var c := cs[|cs| - 1];
      forall j | 0 <= j < ix.counts[c]
        ensures ClusterItems(ix, q, c)[j].dist < I64_MAX
        ensures ClusterItems(ix, q, c)[j].fraud == 0 || ClusterItems(ix, q, c)[j].fraud == 1
      {
        ItemRange(ix, q, c, j);
      }
    }
  }

  /** The cluster and place that an item of a scan comes from. */
  lemma {:induction false} ItemOrigin(ix: Index, q: seq<int>, cs: seq<int>, i: nat) returns (p: nat, j: nat)
    requires Shape(ix) && |q| == PADDED && Clusters(ix, cs) && i < |Items(ix, q, cs)|
    ensures p < |cs| && j < ix.counts[cs[p]] && Items(ix, q, cs)[i] == ClusterItem(ix, q, cs[p], j)
    ensures |Items(ix, q, cs[..p])| + j == i
  {
    hide Shape, ClusterItem;
    var rest := cs[..|cs| - 1];
    if i < |Items(ix, q, rest)| {
      p, j := ItemOrigin(ix, q, rest, i);
      assert rest[..p] == cs[..p];
    } else {
      p, j := |cs| - 1, i - |Items(ix, q, rest)|;
    }
  }

  /** A scan of distinct clusters sees no vector twice. */
  lemma ItemsDistinct(ix: Index, q: seq<int>, cs: seq<int>, i: nat, i': nat)
    requires Shape(ix) && |q| == PADDED && Clusters(ix, cs) && Distinct(cs)
    requires i < i' < |Items(ix, q, cs)|
    ensures Items(ix, q, cs)[i].slot != Items(ix, q, cs)[i'].slot
  {
    hide OffsetsOk, Items;
    var p, j := ItemOrigin(ix, q, cs, i);
    var p', j' := ItemOrigin(ix, q, cs, i');
    if Items(ix, q, cs)[i].slot == Items(ix, q, cs)[i'].slot {
      SlotsDistinct(ix, cs[p], j, cs[p'], j');
    }
  }

  ghost predicate DifferentSlots(xs: seq<Item>) {
    forall i, j :: 0 <= i < j < |xs| ==> xs[i].slot != xs[j].slot
  }

  lemma SubSlotsDiffer(s: seq<Item>, t: seq<Item>)
    requires multiset(s) <= multiset(t) && DifferentSlots(t)
    ensures DifferentSlots(s)
  {
    forall i, j | 0 <= i < j < |s| ensures s[i].slot != s[j].slot {
      assert s[i] in multiset(s) && s[j] in multiset(s);
      var a :| 0 <= a < |t| && t[a] == s[i];
      var b :| 0 <= b < |t| && t[b] == s[j];
      if a == b {
        TwiceIn(s, i, j);
        OnceIn(t, a);
        assert false;
      }
    }
  }

  /** The first `n` of the five are different stored vectors, listed nearest first; the rest are sentinels. */
  ghost predicate DistinctStored(best: seq<Item>, xs: seq<Item>) {
    var n := Min(TOP_K, |xs|);
    && |best| == TOP_K
    && multiset(best[..n]) <= multiset(xs)
    && DifferentSlots(best[..n])
    && forall i :: n <= i < TOP_K ==> best[i] == SENTINEL
  }

  lemma SoundIsStored(ix: Index, q: seq<int>, st: State)
    requires WF(ix) && Query(q) && Sound(ix, q, st)
    ensures NearestOf(st.best, Items(ix, q, st.covered), LeftOver(Items(ix, q, st.covered)))
    ensures DistinctStored(st.best, Items(ix, q, st.covered))
  {
    var xs := Items(ix, q, st.covered);
    ItemsRange(ix, q, st.covered);
    ScanIsNearest(xs);
    hide BoxOk, OffsetsOk, Items;
    forall i, j | 0 <= i < j < |xs| ensures xs[i].slot != xs[j].slot {
      ItemsDistinct(ix, q, st.covered, i, j);
    }
    SubSlotsDiffer(st.best[..Min(TOP_K, |xs|)], xs);
  }

  // ---- the theorems ----

  /** The full repair ran, and the repair over probes before it was not cut. */
  ghost predicate Uncut(ix: Index, q: seq<int>)
    requires Shape(ix) && |q| == PADDED
  {
    Run(ix, q).exit.AfterFull? && !Run(ix, q).state.cut
  }

  /**
   * Exactness. When the repair over probes was not cut and the full repair ran, every nonempty cluster is covered
   * once, and the five kept are nearest of all stored vectors, at the distances a plain scan of them finds.
   */
  lemma ExactWhenUncut(ix: Index, q: seq<int>) returns (rest: seq<Item>)
    requires WF(ix) && Query(q)
    ensures Uncut(ix, q) ==>
              var r := Run(ix, q).state;
              && Distinct(r.covered)
              && (forall c :: c in r.covered <==> 0 <= c < ix.k && ix.counts[c] > 0)
              && NearestOf(r.best, AllItems(ix, q), rest)
              && DistinctStored(r.best, AllItems(ix, q))
              && forall i :: 0 <= i < TOP_K ==> r.best[i].dist == Scan(EMPTY, AllItems(ix, q))[i].dist
  {
    rest := [];
    if Uncut(ix, q) {
      EveryRun(ix, q);
      var r := Run(ix, q).state;
      UncutCoversAll(ix, q, ProbesOf(ix, q), r.covered);
      rest := AllCoveredIsExact(ix, q, r);
    }
  }

  /**
   * A condition on the stored vectors alone: when none lies within the early distance, no run is cut or leaves
   * after the initial scan, so any score below five comes from an exact run.
   */
  lemma FarIsUncut(ix: Index, q: seq<int>)
    requires WF(ix) && Query(q)
    requires forall x :: x in AllItems(ix, q) ==> x.dist > EARLY_DIST
    ensures !Run(ix, q).state.cut && !Run(ix, q).exit.AfterInitial?
    ensures Frauds(Run(ix, q).state.best) <= REPAIR_MAX ==> Uncut(ix, q)
  {
    EveryRun(ix, q);
    var r := Run(ix, q).state;
    SoundIsStored(ix, q, r);
    hide Run, WF, ProbesOf;
    CoveredAreStored(ix, q, r.covered, r.best);
  }

  /** The fifth distance is that of a stored vector, or the sentinel's. */
  lemma CoveredAreStored(ix: Index, q: seq<int>, covered: seq<int>, best: seq<Item>)
    requires Shape(ix) && |q| == PADDED && Clusters(ix, covered) && Distinct(covered)
    requires DistinctStored(best, Items(ix, q, covered))
    ensures best[TOP_K - 1] == SENTINEL || best[TOP_K - 1] in AllItems(ix, q)
  {
    hide Shape, Items, AllItems, Missed, DistinctStored;
    CoveredAndMissed(ix, q, covered);
    FifthStored(best, Items(ix, q, covered), Items(ix, q, Missed(ix, covered)), AllItems(ix, q));
  }

  lemma FifthStored(best: seq<Item>, xs: seq<Item>, ys: seq<Item>, all: seq<Item>)
    requires DistinctStored(best, xs) && multiset(xs + ys) == multiset(all)
    ensures |best| == TOP_K && (best[TOP_K - 1] == SENTINEL || best[TOP_K - 1] in all)
  {
    hide DifferentSlots;
    var x := best[TOP_K - 1];
    if |xs| >= TOP_K {
      assert x in best[..TOP_K];
      assert x in multiset(best[..TOP_K]);
      assert x in multiset(xs);
      assert x in xs + ys;
      assert x in multiset(all);
    }
  }

  lemma UncutCoversAll(ix: Index, q: seq<int>, ps: seq<Probe>, covered: seq<int>)
    requires Shape(ix) && |q| == PADDED && ps == ProbesOf(ix, q) && Clusters(ix, covered)
    requires covered == ClustersOf(ps, |ps|) + Untaken(ix, Taken(ps), 0)
    ensures forall c :: c in covered <==> 0 <= c < ix.k && ix.counts[c] > 0
  {
    hide OffsetsOk, ProbesOf, Untaken, Taken, ProperProbes, ClustersOf;
    ProbesProper(ix, q);
    RunnableClusters(ix, q, ps);
    TakenAre(ps);
    UntakenAre(ix, Taken(ps), 0);
    forall c | 0 <= c < ix.k && ix.counts[c] > 0 ensures c in covered {
      if c in Taken(ps) {
        var i :| 0 <= i < |ps| && ps[i].cluster == c;
        assert ClustersOf(ps, |ps|)[i] == c;
        assert covered[i] == c;
      } else {
        assert c in Untaken(ix, Taken(ps), 0);
      }
    }
  }

  lemma RunnableClusters(ix: Index, q: seq<int>, ps: seq<Probe>)
    requires Shape(ix) && |q| == PADDED && ProperProbes(ix, q, ps)
    ensures forall i :: 0 <= i < |ps| ==> ps[i].cluster != U32_MAX
  {}

  lemma AllCoveredIsExact(ix: Index, q: seq<int>, st: State) returns (rest: seq<Item>)
    requires WF(ix) && Query(q) && Sound(ix, q, st)
    requires forall c :: c in st.covered <==> 0 <= c < ix.k && ix.counts[c] > 0
    ensures NearestOf(st.best, AllItems(ix, q), rest)
    ensures DistinctStored(st.best, AllItems(ix, q))
    ensures forall i :: 0 <= i < TOP_K ==> st.best[i].dist == Scan(EMPTY, AllItems(ix, q))[i].dist
  {
    SoundIsStored(ix, q, st);
    var xs, all := Items(ix, q, st.covered), AllItems(ix, q);
    rest := LeftOver(xs);
    hide WF, Items, LeftOver, NearestOf, DistinctStored, Finite;
    SameClusters(st.covered, AllClusters(ix));
    ItemsPermuted(ix, q, st.covered, AllClusters(ix));
    ItemsRange(ix, q, st.covered);
    ItemsRange(ix, q, AllClusters(ix));
    SameItemsExact(st.best, xs, all);
  }

  /** The nearest of some items are the nearest of the same items in another order. */
  lemma SameItemsExact(best: seq<Item>, xs: seq<Item>, all: seq<Item>)
    requires best == Scan(EMPTY, xs) && multiset(xs) == multiset(all) && Finite(xs) && Finite(all)
    requires NearestOf(best, xs, LeftOver(xs)) && DistinctStored(best, xs)
    ensures NearestOf(best, all, LeftOver(xs)) && DistinctStored(best, all)
    ensures forall i :: 0 <= i < TOP_K ==> best[i].dist == Scan(EMPTY, all)[i].dist
  {
    SameSize(xs, all);
    hide Finite, Scan, LeftOver;
    forall i | 0 <= i < TOP_K ensures best[i].dist == Scan(EMPTY, all)[i].dist {
      ScanDistancesPermuted(xs, all, i);
    }
  }

  /** The run keeps the five distances of a plain scan of everything. */
  ghost predicate Exact(ix: Index, q: seq<int>)
    requires Shape(ix) && |q| == PADDED
  {
    forall i :: 0 <= i < TOP_K ==> Run(ix, q).state.best[i].dist == Scan(EMPTY, AllItems(ix, q))[i].dist
  }

  /** An exact run scores as the items do, wherever exactly five of them are nearer than `d`. */
  lemma ExactFraudsBelow(ix: Index, q: seq<int>, d: int)
    requires WF(ix) && Query(q) && d <= I64_MAX && Total(AllItems(ix, q), Below(d)) == TOP_K
    ensures Exact(ix, q) ==> Frauds(Run(ix, q).state.best) == Total(AllItems(ix, q), FraudBelow(d))
  {
    hide WF, Query, Shape, Run, ProbesOf, Items, AllItems, AllClusters, Missed, InIndex, Foretell, Scan, Finite, Frauds,
         ForetoldClusters, Total;
    Shaped(ix, q);
    if !Exact(ix, q) { return; }
    EveryRun(ix, q);
    var covered := Run(ix, q).state.covered;
    CoveredAndMissed(ix, q, covered);
    ItemsRange(ix, q, covered);
    AllRange(ix, q);
    FraudsOfPart(Items(ix, q, covered), Items(ix, q, Missed(ix, covered)), AllItems(ix, q), d);
  }

  lemma AllRange(ix: Index, q: seq<int>)
    requires WF(ix) && Query(q)
    ensures Finite(AllItems(ix, q))
  {
    ItemsRange(ix, q, AllClusters(ix));
  }

  /** With no tie across the fifth place, the score of an exact run is the fraud count of the plain scan. */
  lemma ExactCountWithoutTie(ix: Index, q: seq<int>)
    requires WF(ix) && Query(q)
    requires |AllItems(ix, q)| >= TOP_K
    requires forall x :: x in LeftOver(AllItems(ix, q)) ==> Threshold(Scan(EMPTY, AllItems(ix, q))) < x.dist
    ensures Exact(ix, q) ==> Frauds(Run(ix, q).state.best) == Frauds(Scan(EMPTY, AllItems(ix, q)))
  {
    hide WF, Query, Run, AllItems, LeftOver, Scan, Frauds, Finite, Total;
    Shaped(ix, q);
    AllRange(ix, q);
    var all := AllItems(ix, q);
    NoTieCounts(all);
    var d := Threshold(Scan(EMPTY, all)) + 1;
    ExactFraudsBelow(ix, q, d);
    FraudsOfFive(all, d);
  }

  /** No vector of the clusters `cs` is nearer than `d`. */
  ghost predicate NoneNearer(ix: Index, q: seq<int>, cs: seq<int>, d: int)
    requires Shape(ix) && |q| == PADDED && Clusters(ix, cs)
  {
    forall x :: x in Items(ix, q, cs) ==> x.dist >= d
  }

  /**
   * The exact guard, from the index and the query alone. A run that leaves early must have nothing nearer in any other
   * cluster. One that goes on to the full repair misses only the probes after the first cut, so these must hold
   * nothing nearer than the fifth of all the rest.
   */
  ghost predicate Guard(ix: Index, q: seq<int>, ps: seq<Probe>)
    requires Shape(ix) && |q| == PADDED && InIndex(ix, ps)
  {
    var m := Min(NPROBE, |ps|);
    var n := StopsAt(ix, q, ps, m);
    if FiveTight(PrefixBest(ix, q, ps, m)) then
      NoneNearer(ix, q, Missed(ix, ClustersOf(ps, m)), Threshold(PrefixBest(ix, q, ps, m)))
    else if Frauds(PrefixBest(ix, q, ps, n)) > REPAIR_MAX then
      NoneNearer(ix, q, Missed(ix, ClustersOf(ps, n)), Threshold(PrefixBest(ix, q, ps, n)))
    else
      var rest := ClustersOf(ps, n) + Untaken(ix, Taken(ps), 0);
      Clusters(ix, rest) && Clusters(ix, ClustersOf(ps, |ps|)[n..]) &&
      NoneNearer(ix, q, ClustersOf(ps, |ps|)[n..], Threshold(Scan(EMPTY, Items(ix, q, rest))))
  }

  /** On any run at all, the distances are those of a plain scan of everything if and only if the guard holds. */
  lemma ExactIffGuard(ix: Index, q: seq<int>)
    requires WF(ix) && Query(q)
    ensures InIndex(ix, ProbesOf(ix, q)) && (Exact(ix, q) <==> Guard(ix, q, ProbesOf(ix, q)))
  {
    hide WF, Query, Shape, Run, ProbesOf, ClustersOf, Untaken, Taken, Missed, Items, InIndex, StopsAt, CutAfter, Frauds,
         Threshold, Clusters;
    Shaped(ix, q);
    var r, ps := Run(ix, q), ProbesOf(ix, q);
    EveryRun(ix, q);
    SoundExactIff(ix, q, r.state);
    var f := Foretell(ix, q, ps);
    if f.exit.AfterFull? {
      MissedProbes(ix, q, ps, f.n, r.state.covered);
      assert r.state.best == Scan(EMPTY, Items(ix, q, r.state.covered));
    } else {
      assert ClustersOf(ps, f.n) + [] == ClustersOf(ps, f.n);
      assert r.state.best == PrefixBest(ix, q, ps, f.n);
    }
  }

  /** After the full repair the clusters missed are the probes after the first cut. */
  lemma MissedProbes(ix: Index, q: seq<int>, ps: seq<Probe>, n: nat, covered: seq<int>)
    requires Shape(ix) && |q| == PADDED && ps == ProbesOf(ix, q) && n <= |ps| && Clusters(ix, covered)
    requires covered == ClustersOf(ps, n) + Untaken(ix, Taken(ps), 0)
    ensures Clusters(ix, ClustersOf(ps, |ps|)[n..])
    ensures forall d :: NoneNearer(ix, q, ClustersOf(ps, |ps|)[n..], d) <==> NoneNearer(ix, q, Missed(ix, covered), d)
  {
    ProbesProper(ix, q);
    var late, missed := ClustersOf(ps, |ps|)[n..], Missed(ix, covered);
    hide ProbesOf, OffsetsOk, ClustersOf, Untaken, Missed, ProperProbes;
    LateAreMissed(ix, q, ps, n, covered, late);
    SameClusters(late, missed);
    ItemsPermuted(ix, q, late, missed);
    SameMembers(Items(ix, q, late), Items(ix, q, missed));
  }

  lemma SameMembers(xs: seq<Item>, ys: seq<Item>)
    requires multiset(xs) == multiset(ys)
    ensures forall x :: x in xs <==> x in ys
  {
    assert forall x :: x in xs <==> x in multiset(xs);
    assert forall x :: x in ys <==> x in multiset(ys);
  }

  lemma LateAreMissed(ix: Index, q: seq<int>, ps: seq<Probe>, n: nat, covered: seq<int>, late: seq<int>)
    requires Shape(ix) && |q| == PADDED && ProperProbes(ix, q, ps) && n <= |ps|
    requires covered == ClustersOf(ps, n) + Untaken(ix, Taken(ps), 0) && late == ClustersOf(ps, |ps|)[n..]
    ensures Clusters(ix, late) && Distinct(late) && forall c :: c in late <==> c in Missed(ix, covered)
  {
    hide Shape, Untaken, Taken, Missed, ProperProbes, Clusters, Distinct;
    LateClusters(ix, q, ps, n, late);
    forall c ensures c in late <==> c in Missed(ix, covered) {
      LateIsMissed(ix, q, ps, n, covered, late, c);
    }
  }

  lemma LateClusters(ix: Index, q: seq<int>, ps: seq<Probe>, n: nat, late: seq<int>)
    requires Shape(ix) && |q| == PADDED && ProperProbes(ix, q, ps) && n <= |ps| && late == ClustersOf(ps, |ps|)[n..]
    ensures Clusters(ix, late) && Distinct(late)
  {
    hide OffsetsOk, KeepsNearest;
    assert forall i :: 0 <= i < |late| ==> late[i] == ps[n + i].cluster;
  }

  lemma LateIsMissed(ix: Index, q: seq<int>, ps: seq<Probe>, n: nat, covered: seq<int>, late: seq<int>, c: int)
    requires Shape(ix) && |q| == PADDED && ProperProbes(ix, q, ps) && n <= |ps| && late == ClustersOf(ps, |ps|)[n..]
    requires covered == ClustersOf(ps, n) + Untaken(ix, Taken(ps), 0)
    ensures c in late <==> c in Missed(ix, covered)
  {
    hide OffsetsOk, Untaken, Taken, ClustersOf, KeepsNearest;
    LateIsTaken(ix, q, ps, n, late, c);
    TakenAre(ps);
    UntakenAre(ix, Taken(ps), 0);
    assert c in covered <==> c in ClustersOf(ps, n) || c in Untaken(ix, Taken(ps), 0);
  }

  lemma LateIsTaken(ix: Index, q: seq<int>, ps: seq<Probe>, n: nat, late: seq<int>, c: int)
    requires Shape(ix) && |q| == PADDED && ProperProbes(ix, q, ps) && n <= |ps| && late == ClustersOf(ps, |ps|)[n..]
    ensures c in late <==> (exists i :: 0 <= i < |ps| && ps[i].cluster == c) && c !in ClustersOf(ps, n)
    ensures c in late ==> 0 <= c < ix.k && ix.counts[c] > 0
  {
    hide OffsetsOk;
    assert forall i :: 0 <= i < |late| ==> late[i] == ps[n + i].cluster;
    if i :| 0 <= i < |ps| && ps[i].cluster == c {
      if i < n {
        assert ClustersOf(ps, n)[i] == c;
      } else {
        assert late[i - n] == c;
      }
    }
  }

  /**
   * A run is uncut and goes through the full repair if and only if its first probe does not hold five tight frauds,
   * no later probe meets the guard of the early break, and all probes together hold a nearest five not all fraud.
   */
  lemma UncutIff(ix: Index, q: seq<int>)
    requires WF(ix) && Query(q)
    ensures InIndex(ix, ProbesOf(ix, q))
    ensures var ps := ProbesOf(ix, q);
            var m := Min(NPROBE, |ps|);
            Uncut(ix, q) <==>
              && !FiveTight(PrefixBest(ix, q, ps, m))
              && (forall n :: m < n <= |ps| ==> !CutAt(ix, q, ps, n))
              && Frauds(PrefixBest(ix, q, ps, |ps|)) <= REPAIR_MAX
  {
    EveryRun(ix, q);
  }

  lemma SoundExactIff(ix: Index, q: seq<int>, st: State)
    requires WF(ix) && Query(q) && Sound(ix, q, st)
    ensures (forall i :: 0 <= i < TOP_K ==> st.best[i].dist == Scan(EMPTY, AllItems(ix, q))[i].dist)
       <==> (forall x :: x in Items(ix, q, Missed(ix, st.covered)) ==> x.dist >= Threshold(st.best))
  {
    var xs, ys, all := Items(ix, q, st.covered), Items(ix, q, Missed(ix, st.covered)), AllItems(ix, q);
    CoveredAndMissed(ix, q, st.covered);
    ItemsRange(ix, q, st.covered);
    ItemsRange(ix, q, Missed(ix, st.covered));
    ItemsRange(ix, q, AllClusters(ix));
    hide BoxOk, OffsetsOk, Items, AllClusters, Missed;
    MoreIsTheSameIff(xs, ys);
    forall i | 0 <= i < TOP_K ensures Scan(EMPTY, xs + ys)[i].dist == Scan(EMPTY, all)[i].dist {
      ScanDistancesPermuted(xs + ys, all, i);
    }
  }

  /**
   * Early exits. A score returned without the full repair is always five, and either five different stored
   * frauds lie within the early distance, or every cluster chosen as a probe was covered.
   */
  lemma EarlyExitCertificate(ix: Index, q: seq<int>)
    requires WF(ix) && Query(q)
    ensures !Run(ix, q).exit.AfterFull? ==>
              var r := Run(ix, q).state;
              && Frauds(r.best) == TOP_K
              && Clusters(ix, r.covered)
              && multiset(r.best) <= multiset(Items(ix, q, r.covered))
              && DifferentSlots(r.best)
              && (forall i :: 0 <= i < TOP_K ==> r.best[i].fraud == 1)
              && ((forall i :: 0 <= i < TOP_K ==> r.best[i].dist <= EARLY_DIST)
                  || forall i :: 0 <= i < |ProbesOf(ix, q)| ==> ProbesOf(ix, q)[i].cluster in r.covered)
  {
    hide WF, Query, Shape, Run, ProbesOf, Items, InIndex, Untaken, Taken, PrefixBest, StopsAt, CutAfter, Frauds,
         ClustersOf;
    Shaped(ix, q);
    if Run(ix, q).exit.AfterFull? { return; }
    EveryRun(ix, q);
    var r, ps := Run(ix, q).state, ProbesOf(ix, q);
    SoundIsStored(ix, q, r);
    FiveFrauds(ix, q, r);
    if Threshold(r.best) > EARLY_DIST {
      assert r.covered == ClustersOf(ps, |ps|);
      forall i | 0 <= i < |ps| ensures ps[i].cluster in r.covered {
        assert r.covered[i] == ps[i].cluster;
      }
    }
  }

  lemma FiveFrauds(ix: Index, q: seq<int>, st: State)
    requires WF(ix) && Query(q) && Sound(ix, q, st) && Frauds(st.best) > REPAIR_MAX
    requires DistinctStored(st.best, Items(ix, q, st.covered))
    ensures Frauds(st.best) == TOP_K && |Items(ix, q, st.covered)| >= TOP_K
    ensures forall i :: 0 <= i < TOP_K ==> st.best[i].fraud == 1
    ensures st.best[..TOP_K] == st.best
  {
    var xs := Items(ix, q, st.covered);
    var n := Min(TOP_K, |xs|);
    ItemsRange(ix, q, st.covered);
    hide BoxOk, OffsetsOk, Items;
    forall i | 0 <= i < TOP_K ensures st.best[i].fraud == 0 || st.best[i].fraud == 1 {
      if i < n {
        assert st.best[..n][i] == st.best[i];
        assert st.best[i] in multiset(st.best[..n]);
        assert st.best[i] in xs;
      }
    }
    assert n < TOP_K ==> st.best[TOP_K - 1] == SENTINEL;
    FraudsRange(st.best);
  }

  // ---- the run in numbers ----

  /** No fraud or nothing but frauds among the five, and the fifth within fourteen million. */
  predicate OneSided(best: seq<Item>)
    requires |best| == TOP_K
  {
    (Frauds(best) == 0 || Frauds(best) == 5) && best[4].dist <= 14_000_000
  }

  /** Probe `n`, counted from one, may hold something nearer than the fifth so far, and leaves a one-sided five. */
  ghost predicate BreaksAt(ix: Index, q: seq<int>, ps: seq<Probe>, n: nat)
    requires Shape(ix) && |q| == PADDED && InIndex(ix, ps)
  {
    && 2 <= n <= |ps|
    && Bound(ix, q, ps[n - 1].cluster) < PrefixBest(ix, q, ps, n - 1)[4].dist
    && OneSided(PrefixBest(ix, q, ps, n))
  }

  lemma {:induction false} ScanLabels(xs: seq<Item>)
    requires Finite(xs) && forall i :: 0 <= i < |xs| ==> xs[i].fraud == 0 || xs[i].fraud == 1
    ensures forall i :: 0 <= i < TOP_K ==> Scan(EMPTY, xs)[i].fraud == 0 || Scan(EMPTY, xs)[i].fraud == 1
  {
    ScanIsNearest(xs);
    hide Scan, LeftOver, Finite;
    var best, n := Scan(EMPTY, xs), Min(TOP_K, |xs|);
    forall i | 0 <= i < TOP_K ensures best[i].fraud == 0 || best[i].fraud == 1 {
      if i < n {
        assert best[..n][i] == best[i];
        assert best[i] in multiset(best[..n]);
        assert best[i] in multiset(xs);
        assert best[i] in xs;
      }
    }
  }

  lemma PrefixFrauds(ix: Index, q: seq<int>, ps: seq<Probe>, n: nat)
    requires WF(ix) && Query(q) && InIndex(ix, ps) && n <= |ps|
    ensures Shape(ix) && |q| == PADDED && 0 <= Frauds(PrefixBest(ix, q, ps, n)) <= 5
  {
    Shaped(ix, q);
    hide WF, Query, Shape, Scan, Items, Finite, Frauds;
    var xs := Items(ix, q, ClustersOf(ps, n));
    ItemsRange(ix, q, ClustersOf(ps, n));
    ScanLabels(xs);
    FraudsRange(Scan(EMPTY, xs));
  }

  lemma CutInNumbers(ix: Index, q: seq<int>, ps: seq<Probe>, n: nat)
    requires WF(ix) && Query(q) && InIndex(ix, ps) && 2 <= n <= |ps|
    ensures Shape(ix) && |q| == PADDED && (CutAt(ix, q, ps, n) <==> BreaksAt(ix, q, ps, n))
  {
    hide WF, Query, Shape, InIndex, PrefixBest, Bound, Frauds;
    Shaped(ix, q);
    PrefixFrauds(ix, q, ps, n);
  }

  /**
   * A run, in numbers. It leaves after the first probe if and only if that leaves five frauds within fourteen
   * million. Otherwise it covers the probes up to the first that breaks, `n` of them, and is cut if and only if one
   * does; it then goes on to every other nonempty cluster unless all five are frauds.
   */
  ghost predicate InNumbers(ix: Index, q: seq<int>, ps: seq<Probe>, r: Outcome, n: nat)
    requires Shape(ix) && |q| == PADDED && InIndex(ix, ps) && n <= |ps|
  {
    var m := if |ps| == 0 then 0 else 1;
    var first := PrefixBest(ix, q, ps, m);
    && (r.exit.AfterInitial? <==> Frauds(first) == 5 && first[4].dist <= 14_000_000)
    && (r.exit.AfterInitial? ==> n == m && !r.state.cut)
    && (!r.exit.AfterInitial? ==>
          && (r.state.cut <==> exists i: nat :: BreaksAt(ix, q, ps, i))
          && (forall i: nat :: BreaksAt(ix, q, ps, i) ==> i >= n)
          && (n == |ps| || BreaksAt(ix, q, ps, n))
          && (r.exit.AfterFull? <==> Frauds(PrefixBest(ix, q, ps, n)) < 5))
    && r.state.covered == ClustersOf(ps, n) + if r.exit.AfterFull? then Untaken(ix, Taken(ps), 0) else []
  }

  lemma RunInNumbers(ix: Index, q: seq<int>) returns (n: nat)
    requires WF(ix) && Query(q)
    ensures InIndex(ix, ProbesOf(ix, q)) && n <= |ProbesOf(ix, q)|
    ensures InNumbers(ix, q, ProbesOf(ix, q), Run(ix, q), n)
  {
    hide WF, Query, Shape, Run, ProbesOf, ClustersOf, Untaken, Taken, InIndex, PrefixBest, StopsAt, Sound, Frauds,
         CutAt, BreaksAt;
    Shaped(ix, q);
    EveryRun(ix, q);
    var ps := ProbesOf(ix, q);
    var m := Min(NPROBE, |ps|);
    n := Foretell(ix, q, ps).n;
    StopsAtFirstCut(ix, q, ps, m);
    forall i | 2 <= i <= |ps| ensures CutAt(ix, q, ps, i) <==> BreaksAt(ix, q, ps, i) { CutInNumbers(ix, q, ps, i); }
    BreakRange(ix, q, ps);
    PrefixFrauds(ix, q, ps, n);
  }

  lemma BreakRange(ix: Index, q: seq<int>, ps: seq<Probe>)
    requires Shape(ix) && |q| == PADDED && InIndex(ix, ps)
    ensures forall i: nat :: BreaksAt(ix, q, ps, i) ==> 2 <= i <= |ps|
  {}

  lemma {:induction false} TotalOfZeros(xs: seq<Item>, f: Item -> int)
    requires forall i :: 0 <= i < |xs| ==> f(xs[i]) == 0
    ensures Total(xs, f) == 0
  {
    if xs != [] { TotalOfZeros(xs[..|xs| - 1], f); }
  }

  lemma NoFrauds(ix: Index, q: seq<int>, ps: seq<Probe>)
    requires Shape(ix) && |q| == PADDED && InIndex(ix, ps)
    ensures Frauds(PrefixBest(ix, q, ps, 0)) == 0
  {
    assert ClustersOf(ps, 0) == [];
    assert Items(ix, q, []) == [];
    assert Scan(EMPTY, []) == EMPTY;
    TotalOfZeros(EMPTY, Fraud());
  }

  /** A run whose fives always hold one to four frauds is never cut, at any distance, and goes through both repairs. */
  lemma MixedIsUncut(ix: Index, q: seq<int>)
    requires WF(ix) && Query(q) && InIndex(ix, ProbesOf(ix, q))
    requires forall n :: 1 <= n <= |ProbesOf(ix, q)| ==> 1 <= Frauds(PrefixBest(ix, q, ProbesOf(ix, q), n)) <= 4
    ensures Uncut(ix, q)
  {
    hide WF, Query, Shape, Run, ProbesOf, ClustersOf, Untaken, Taken, InIndex, PrefixBest, Frauds, Bound;
    Shaped(ix, q);
    var n := RunInNumbers(ix, q);
    if |ProbesOf(ix, q)| == 0 { NoFrauds(ix, q, ProbesOf(ix, q)); }
  }

  /** At most thirty-three clusters are probed: as many as there are nonempty ones. */
  lemma ProbeCount(ix: Index, q: seq<int>)
    requires Shape(ix) && |q| == PADDED
    ensures |ProbesOf(ix, q)| == Min(33, |Candidates(ix, q, ix.k)|)
  {
    hide Shape, Candidates, Select, HeapSort;
  }

  /** The probes are the nonempty clusters with the nearest centroids, nearest first. */
  lemma ProbesAreNearest(ix: Index, q: seq<int>, i: nat, c: nat)
    requires Shape(ix) && |q| == PADDED && i < |ProbesOf(ix, q)| && c < ix.k && ix.counts[c] > 0
    requires forall j :: 0 <= j <= i ==> ProbesOf(ix, q)[j].cluster != c
    ensures HoldsSlot(ix.centroids, c) && 0 <= ProbesOf(ix, q)[i].cluster < ix.k
    ensures HoldsSlot(ix.centroids, ProbesOf(ix, q)[i].cluster)
    ensures Dist(q, VectorAt(ix.centroids, ProbesOf(ix, q)[i].cluster)) <= Dist(q, VectorAt(ix.centroids, c))
  {
    hide OffsetsOk, ProbesOf, Candidates, Dropped, Dist, VectorAt, HoldsSlot;
    var ps, all := ProbesOf(ix, q), Candidates(ix, q, ix.k);
    ProbesProper(ix, q);
    CandidatesAre(ix, q, ix.k);
    CentroidSlot(ix, c);
    CentroidSlot(ix, ps[i].cluster);
    var x := Candidate(ix, q, c);
    assert x in all;
    assert x in multiset(all);
    if x in multiset(ps) {
      var j :| 0 <= j < |ps| && ps[j] == x;
      assert i < j;
    } else {
      assert x in Dropped(all);
    }
  }
}
