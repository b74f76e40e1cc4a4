/** What every run of the search keeps, and when its answer is the exact one. */
module Exactness {
  import opened Sequences
  import opened Machine
  import opened Geometry
  import opened TopFive
  import opened ProbeHeap
  import opened SeenMask
  import opened Index
  import opened SearchSpec

  ghost predicate Distinct(cs: seq<int>) {
    forall i, j :: 0 <= i < j < |cs| ==> cs[i] != cs[j]
  }

  /** The five kept are those of the clusters covered so far, scanned or pruned, each of them once. */
  ghost predicate Sound(ix: Index, q: seq<int>, st: State)
    requires Shape(ix) && |q| == PADDED
  {
    && |st.best| == TOP_K
    && Clusters(ix, st.covered)
    && Distinct(st.covered)
    && st.best == Scan(EMPTY, Items(ix, q, st.covered))
  }

  lemma ItemsSnoc(ix: Index, q: seq<int>, cs: seq<int>, c: nat)
    requires Shape(ix) && |q| == PADDED && Clusters(ix, cs) && c < ix.k && ix.counts[c] > 0
    ensures Clusters(ix, cs + [c]) && Items(ix, q, cs + [c]) == Items(ix, q, cs) + ClusterItems(ix, q, c)
  {
    assert (cs + [c])[..|cs|] == cs;
  }

  /** Covering one more cluster, by a scan or by a prune, keeps the invariant. */
  lemma StepSound(ix: Index, q: seq<int>, st: State, c: nat)
    requires WF(ix) && Query(q) && Sound(ix, q, st) && c < ix.k && ix.counts[c] > 0 && c !in st.covered
    ensures Sound(ix, q, Cover(ix, q, st, c)) && Sound(ix, q, PruneOrScan(ix, q, st, c))
  {
    ItemsSnoc(ix, q, st.covered, c);
    ScanConcat(EMPTY, Items(ix, q, st.covered), ClusterItems(ix, q, c));
    if Bound(ix, q, c) >= Threshold(st.best) { BoxPruneSound(ix, q, c, st.best); }
  }

  ghost function ClustersOf(ps: seq<Probe>, n: nat): (cs: seq<int>)
    requires n <= |ps|
    ensures |cs| == n && forall i :: 0 <= i < n ==> cs[i] == ps[i].cluster
  {
    seq(n, i requires 0 <= i < n => ps[i].cluster)
  }

  lemma ClustersOfNext(ps: seq<Probe>, n: nat)
    requires n < |ps|
    ensures ClustersOf(ps, n + 1) == ClustersOf(ps, n) + [ps[n].cluster]
  {}

  /** The probes in order are the clusters a repair over probes covers: all of them, unless cut. */
  ghost predicate ProbesCovered(ix: Index, q: seq<int>, ps: seq<Probe>, n: nat, st: State)
    requires Shape(ix) && |q| == PADDED
  {
    n <= |ps| && Sound(ix, q, st) && st.covered == ClustersOf(ps, n)
  }

  lemma NextProbeNew(ix: Index, q: seq<int>, ps: seq<Probe>, n: nat)
    requires Shape(ix) && |q| == PADDED && ProperProbes(ix, q, ps) && n < |ps|
    ensures 0 <= ps[n].cluster < ix.k && ix.counts[ps[n].cluster] > 0 && ps[n].cluster !in ClustersOf(ps, n)
  {}

  lemma CutSound(ix: Index, q: seq<int>, st: State)
    requires Shape(ix) && |q| == PADDED && Sound(ix, q, st)
    ensures Sound(ix, q, st.(cut := true))
  {}

  lemma StartSound(ix: Index, q: seq<int>)
    requires Shape(ix) && |q| == PADDED
    ensures Sound(ix, q, START)
  {
    assert Items(ix, q, []) == [];
  }

  lemma {:induction false} InitialCovers(ix: Index, q: seq<int>, ps: seq<Probe>, n: nat)
    requires WF(ix) && Query(q) && ProperProbes(ix, q, ps) && n <= |ps|
    ensures ProbesCovered(ix, q, ps, n, Initial(ix, q, ps, n)) && !Initial(ix, q, ps, n).cut
  {
    hide Sound, BoxOk, Bound, Cover, PruneOrScan, OffsetsOk, ClustersOf;
    if n == 0 {
      StartSound(ix, q);
    } else {
      var m := n - 1;
      InitialCovers(ix, q, ps, m);
      NextProbeNew(ix, q, ps, m);
      StepSound(ix, q, Initial(ix, q, ps, m), ps[m].cluster);
      ClustersOfNext(ps, m);
    }
  }

  // ---- when the repair over probes is cut, from the index and the query alone ----

  /** The five nearest of the first `n` probes. */
  ghost function PrefixBest(ix: Index, q: seq<int>, ps: seq<Probe>, n: nat): (best: seq<Item>)
    requires Shape(ix) && |q| == PADDED && n <= |ps| && Clusters(ix, ClustersOf(ps, n))
    ensures |best| == TOP_K
  {
    Scan(EMPTY, Items(ix, q, ClustersOf(ps, n)))
  }

  /** The guard of the early break at probe `n`: its box beats the fifth distance so far, and it settles the answer. */
  ghost predicate CutAt(ix: Index, q: seq<int>, ps: seq<Probe>, n: nat)
    requires Shape(ix) && |q| == PADDED && 0 < n <= |ps| && InIndex(ix, ps)
  {
    Bound(ix, q, ps[n - 1].cluster) < Threshold(PrefixBest(ix, q, ps, n - 1)) && Settled(PrefixBest(ix, q, ps, n))
  }

  ghost predicate InIndex(ix: Index, ps: seq<Probe>) {
    && (forall i :: 0 <= i < |ps| ==> 0 <= ps[i].cluster < ix.k)
    && (forall n :: 0 <= n <= |ps| ==> Clusters(ix, ClustersOf(ps, n)))
  }

  ghost predicate CutAfter(ix: Index, q: seq<int>, ps: seq<Probe>, pi: nat)
    requires Shape(ix) && |q| == PADDED && InIndex(ix, ps)
  {
    exists n :: pi < n <= |ps| && CutAt(ix, q, ps, n)
  }

  /** How many probes are covered: up to the first cut after `pi`, or all of them. */
  ghost function StopsAt(ix: Index, q: seq<int>, ps: seq<Probe>, pi: nat): (n: nat)
    requires Shape(ix) && |q| == PADDED && InIndex(ix, ps) && pi <= |ps|
    ensures pi <= n <= |ps|
    decreases |ps| - pi
  {
    if pi == |ps| then pi
    else if CutAt(ix, q, ps, pi + 1) then pi + 1
    else StopsAt(ix, q, ps, pi + 1)
  }

  lemma {:induction false} StopsAtFirstCut(ix: Index, q: seq<int>, ps: seq<Probe>, pi: nat)
    requires Shape(ix) && |q| == PADDED && InIndex(ix, ps) && pi <= |ps|
    ensures forall m :: pi < m < StopsAt(ix, q, ps, pi) ==> !CutAt(ix, q, ps, m)
    ensures CutAfter(ix, q, ps, pi) ==> pi < StopsAt(ix, q, ps, pi) && CutAt(ix, q, ps, StopsAt(ix, q, ps, pi))
    ensures !CutAfter(ix, q, ps, pi) ==> StopsAt(ix, q, ps, pi) == |ps|
    decreases |ps| - pi
  {
    hide Shape, InIndex, CutAt;
    if pi < |ps| {
      var j := pi + 1;
      if !CutAt(ix, q, ps, j) { StopsAtFirstCut(ix, q, ps, j); }
    }
  }

  lemma ProbesAreClusters(ix: Index, q: seq<int>, ps: seq<Probe>)
    requires Shape(ix) && |q| == PADDED && ProperProbes(ix, q, ps)
    ensures InIndex(ix, ps)
  {}

  /**
   * From any point of the repair over probes: it stays sound, it covers the probes up to the first cut, and it is
   * cut exactly when some probe ahead meets the guard.
   */
  lemma {:induction false} FastCovers(ix: Index, q: seq<int>, ps: seq<Probe>, pi: nat, st: State)
    requires WF(ix) && Query(q) && ProperProbes(ix, q, ps) && InIndex(ix, ps)
    requires |st.best| == TOP_K && ProbesCovered(ix, q, ps, pi, st) && !st.cut
    ensures ProbesCovered(ix, q, ps, StopsAt(ix, q, ps, pi), Fast(ix, q, ps, pi, st))
    ensures Fast(ix, q, ps, pi, st).cut <==> CutAfter(ix, q, ps, pi)
    ensures Fast(ix, q, ps, pi, st).cut ==> Settled(Fast(ix, q, ps, pi, st).best)
    decreases |ps| - pi
  {
    hide Sound, BoxOk, Bound, Cover, PruneOrScan, OffsetsOk, ClustersOf, InIndex, PrefixBest;
    if pi < |ps| {
      var c, j := ps[pi].cluster, pi + 1;
      NextProbeNew(ix, q, ps, pi);
      StepSound(ix, q, st, c);
      ClustersOfNext(ps, pi);
      var next := PruneOrScan(ix, q, st, c);
      PrefixIsBest(ix, q, ps, pi, st);
      PrefixIsBest(ix, q, ps, j, next);
      if Bound(ix, q, c) < Threshold(st.best) && Settled(next.best) {
        assert CutAt(ix, q, ps, j);
        CutSound(ix, q, next);
      } else {
        assert !CutAt(ix, q, ps, j);
        assert CutAfter(ix, q, ps, pi) == CutAfter(ix, q, ps, j);
        FastCovers(ix, q, ps, j, next);
      }
    }
  }

  lemma PrefixIsBest(ix: Index, q: seq<int>, ps: seq<Probe>, n: nat, st: State)
    requires Shape(ix) && |q| == PADDED && InIndex(ix, ps) && ProbesCovered(ix, q, ps, n, st)
    ensures st.best == PrefixBest(ix, q, ps, n)
  {}

  /** The nonempty clusters from `ci` on that were not taken as probes. */
  ghost function Untaken(ix: Index, taken: set<int>, ci: nat): seq<int>
    requires Shape(ix)
    decreases ix.k - ci
  {
    if ci >= ix.k then []
    else if ix.counts[ci] == 0 || ci in taken then Untaken(ix, taken, ci + 1)
    else [ci] + Untaken(ix, taken, ci + 1)
  }

  /** From any point of the full repair: every remaining cluster is covered once, and the result is sound. */
  lemma {:induction false} FullCovers(ix: Index, q: seq<int>, taken: set<int>, ci: nat, st: State)
    requires WF(ix) && Query(q) && |st.best| == TOP_K && Sound(ix, q, st)
    requires forall i :: 0 <= i < |st.covered| ==> st.covered[i] in taken || st.covered[i] < ci
    ensures Sound(ix, q, Full(ix, q, taken, ci, st))
    ensures Full(ix, q, taken, ci, st).covered == st.covered + Untaken(ix, taken, ci)
    ensures Full(ix, q, taken, ci, st).cut == st.cut
    decreases ix.k - ci
  {
    hide Sound, BoxOk, Bound, Cover, PruneOrScan, OffsetsOk, ClustersOf;
    if ci < ix.k {
      if ix.counts[ci] == 0 || ci in taken {
        FullCovers(ix, q, taken, ci + 1, st);
      } else {
        StepSound(ix, q, st, ci);
        var next := PruneOrScan(ix, q, st, ci);
        FullCovers(ix, q, taken, ci + 1, next);
        assert st.covered + ([ci] + Untaken(ix, taken, ci + 1)) == next.covered + Untaken(ix, taken, ci + 1);
      }
    }
  }

  lemma SoundSorted(ix: Index, q: seq<int>, st: State)
    requires Shape(ix) && |q| == PADDED && Sound(ix, q, st)
    ensures |st.best| == TOP_K && Sorted(st.best)
  {
    EmptySorted();
    ScanSorted(EMPTY, Items(ix, q, st.covered));
  }

  /** The full repair never raises the fifth distance. */
  lemma {:induction false} FullFalls(ix: Index, q: seq<int>, taken: set<int>, ci: nat, st: State)
    requires Shape(ix) && |q| == PADDED && |st.best| == TOP_K && Sorted(st.best)
    ensures Threshold(Full(ix, q, taken, ci, st).best) <= Threshold(st.best)
    decreases ix.k - ci
  {
    hide Scan, Sorted, Bound, ClusterItems;
    if ci < ix.k {
      if ix.counts[ci] == 0 || ci in taken {
        FullFalls(ix, q, taken, ci + 1, st);
      } else {
        ScanSorted(st.best, ClusterItems(ix, q, ci));
        FullFalls(ix, q, taken, ci + 1, PruneOrScan(ix, q, st, ci));
      }
    }
  }

  lemma {:induction false} TakenAre(ps: seq<Probe>)
    requires forall i :: 0 <= i < |ps| ==> ps[i].cluster != U32_MAX
    ensures forall c :: c in Taken(ps) <==> exists i :: 0 <= i < |ps| && ps[i].cluster == c
  {
    if ps != [] {
      TakenAre(ps[1..]);
      forall c ensures c in Taken(ps) <==> exists i :: 0 <= i < |ps| && ps[i].cluster == c {
        if i :| 0 <= i < |ps| && ps[i].cluster == c {
          if i > 0 { assert ps[1..][i - 1].cluster == c; }
        }
        if c in Taken(ps[1..]) {
          var i :| 0 <= i < |ps[1..]| && ps[1..][i].cluster == c;
          assert ps[i + 1].cluster == c;
        }
      }
    }
  }

  /** How a run goes, foretold: where it leaves, after how many probes, and whether it is cut. */
  datatype Forecast = Forecast(exit: Exit, n: nat, cut: bool)

  ghost function Foretell(ix: Index, q: seq<int>, ps: seq<Probe>): (f: Forecast)
    requires Shape(ix) && |q| == PADDED && InIndex(ix, ps)
    ensures f.n <= |ps|
  {
    var m := Min(NPROBE, |ps|);
    if FiveTight(PrefixBest(ix, q, ps, m)) then Forecast(AfterInitial, m, false)
    else
      var n := StopsAt(ix, q, ps, m);
      var exit := if Frauds(PrefixBest(ix, q, ps, n)) > REPAIR_MAX then AfterFast else AfterFull;
      Forecast(exit, n, CutAfter(ix, q, ps, m))
  }

  predicate FiveTight(best: seq<Item>)
    requires |best| == TOP_K
  {
    Frauds(best) == TOP_K && Threshold(best) <= EARLY_DIST
  }

  /** The clusters a run with this forecast covers. */
  ghost function ForetoldClusters(ix: Index, ps: seq<Probe>, f: Forecast): seq<int>
    requires Shape(ix) && f.n <= |ps|
  {
    ClustersOf(ps, f.n) + if f.exit.AfterFull? then Untaken(ix, Taken(ps), 0) else []
  }

  /**
   * What a run leaves behind: the answer is sound for the clusters covered. These are the first `n` probes,
   * all of them unless cut, followed by every other nonempty cluster if the full repair ran.
   */
  ghost predicate Certified(ix: Index, q: seq<int>, ps: seq<Probe>, r: Outcome)
    requires Shape(ix) && |q| == PADDED
  {
    && InIndex(ix, ps)
    && var f := Foretell(ix, q, ps);
    && Sound(ix, q, r.state)
    && r.exit == f.exit && r.state.cut == f.cut
    && r.state.covered == ForetoldClusters(ix, ps, f)
    && (r.exit.AfterInitial? ==> FiveTight(r.state.best))
    && (r.exit.AfterFast? ==> Frauds(r.state.best) > REPAIR_MAX)
    && (r.state.cut ==> Threshold(r.state.best) <= EARLY_DIST)
    && (!r.exit.AfterInitial? && !r.state.cut ==> f.n == |ps|)
  }

  /** Every run, early exits included. */
  lemma EveryRun(ix: Index, q: seq<int>)
    requires WF(ix) && Query(q)
    ensures Certified(ix, q, ProbesOf(ix, q), Run(ix, q))
  {
    ProbesProper(ix, q);
    EveryRunWith(ix, q, ProbesOf(ix, q));
  }

  lemma EveryRunWith(ix: Index, q: seq<int>, ps: seq<Probe>)
    requires WF(ix) && Query(q) && ProperProbes(ix, q, ps)
    ensures Certified(ix, q, ps, RunWith(ix, q, ps))
  {
    hide WF, Shape, Query, Threshold, Clusters, ProperProbes, ValidProbes, ClustersOf, Sound, Fast, Full, Frauds,
         Initial, Taken, Untaken, InIndex, PrefixBest, StopsAt, CutAfter;
    RunnableProbes(ix, q, ps);
    ProbesAreClusters(ix, q, ps);
    var m := Min(NPROBE, |ps|);
    var first := Initial(ix, q, ps, m);
    InitialCovers(ix, q, ps, m);
    PrefixIsBest(ix, q, ps, m, first);
    if FiveTight(first.best) {
      assert ClustersOf(ps, m) + [] == ClustersOf(ps, m);
    } else {
      AfterFirst(ix, q, ps, first);
      var n := StopsAt(ix, q, ps, m);
      LastPhase(ix, q, ps, n, Fast(ix, q, ps, NPROBE, first));
    }
  }

  lemma RunnableProbes(ix: Index, q: seq<int>, ps: seq<Probe>)
    requires WF(ix) && Query(q) && ProperProbes(ix, q, ps)
    ensures Shape(ix) && |q| == PADDED && ValidProbes(ix, ps) && forall i :: 0 <= i < |ps| ==> ps[i].cluster != U32_MAX
  {}

  /** From the end of the repair over probes to the end of the run. */
  lemma LastPhase(ix: Index, q: seq<int>, ps: seq<Probe>, n: nat, fast: State)
    requires WF(ix) && Query(q) && ProperProbes(ix, q, ps) && InIndex(ix, ps)
    requires ProbesCovered(ix, q, ps, n, fast) && |fast.best| == TOP_K
    ensures fast.best == PrefixBest(ix, q, ps, n) && fast.covered == ClustersOf(ps, n) + []
    ensures var full := Full(ix, q, Taken(ps), 0, fast);
            && Sound(ix, q, full) && full.covered == ClustersOf(ps, n) + Untaken(ix, Taken(ps), 0)
            && full.cut == fast.cut && Threshold(full.best) <= Threshold(fast.best)
  {
    PrefixIsBest(ix, q, ps, n, fast);
    assert ClustersOf(ps, n) + [] == ClustersOf(ps, n);
    CoveredAreTaken(ix, q, ps, n, fast);
    hide BoxOk, OffsetsOk, ClustersOf, Full, InIndex, PrefixBest, Taken, Untaken, ProperProbes;
    FullCovers(ix, q, Taken(ps), 0, fast);
    SoundSorted(ix, q, fast);
    FullFalls(ix, q, Taken(ps), 0, fast);
  }

  lemma CoveredAreTaken(ix: Index, q: seq<int>, ps: seq<Probe>, n: nat, st: State)
    requires Shape(ix) && |q| == PADDED && ProperProbes(ix, q, ps) && ProbesCovered(ix, q, ps, n, st)
    ensures forall i :: 0 <= i < |st.covered| ==> st.covered[i] in Taken(ps)
  {
    TakenAre(ps);
  }

  lemma AfterFirst(ix: Index, q: seq<int>, ps: seq<Probe>, first: State)
    requires WF(ix) && Query(q) && ProperProbes(ix, q, ps) && InIndex(ix, ps)
    requires |first.best| == TOP_K && ProbesCovered(ix, q, ps, Min(NPROBE, |ps|), first) && !first.cut
    ensures var m, fast := Min(NPROBE, |ps|), Fast(ix, q, ps, NPROBE, first);
            && ProbesCovered(ix, q, ps, StopsAt(ix, q, ps, m), fast)
            && (fast.cut <==> CutAfter(ix, q, ps, m))
            && (!fast.cut ==> StopsAt(ix, q, ps, m) == |ps|)
            && (fast.cut ==> Threshold(fast.best) <= EARLY_DIST)
  {
    hide BoxOk, OffsetsOk, ClustersOf, Sound, InIndex, PrefixBest;
    if |ps| > 0 {
      FastCovers(ix, q, ps, NPROBE, first);
    }
    StopsAtFirstCut(ix, q, ps, Min(NPROBE, |ps|));
  }
}
