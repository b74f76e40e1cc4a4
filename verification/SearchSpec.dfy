/** The search as a function of the index and the query: which clusters are covered, and the five kept. */
module SearchSpec {
  import opened Sequences
  import opened Machine
  import opened Geometry
  import opened BlockLayout
  import opened Kernels
  import opened TopFive
  import opened ProbeHeap
  import opened SeenMask
  import opened Index

  const NPROBE: nat := 1
  const REPAIR_MIN: nat := 1
  const REPAIR_MAX: nat := 4
  const EARLY_DIST: int := 14_000_000

  lemma CentroidSlot(ix: Index, ci: nat)
    requires Shape(ix) && ci < ix.k
    ensures HoldsSlot(ix.centroids, ci)
  {
    assert ci / LANES < CeilDiv8(ix.k);
  }

  ghost function Candidate(ix: Index, q: seq<int>, ci: nat): Probe
    requires Shape(ix) && |q| == PADDED && ci < ix.k
  {
    CentroidSlot(ix, ci);
    Probe(ci, Dist(q, VectorAt(ix.centroids, ci)))
  }

  /** The nonempty clusters below `n`, in order, with their centroid distances. */
  ghost function Candidates(ix: Index, q: seq<int>, n: nat): seq<Probe>
    requires Shape(ix) && |q| == PADDED && n <= ix.k
  {
    if n == 0 then []
    else if ix.counts[n - 1] == 0 then Candidates(ix, q, n - 1)
    else Candidates(ix, q, n - 1) + [Candidate(ix, q, n - 1)]
  }

  /** The clusters the search starts from, nearest centroid first. */
  ghost function ProbesOf(ix: Index, q: seq<int>): seq<Probe>
    requires Shape(ix) && |q| == PADDED
  {
    Nearest(Candidates(ix, q, ix.k))
  }

  ghost predicate Clusters(ix: Index, cs: seq<int>) {
    forall i :: 0 <= i < |cs| ==> 0 <= cs[i] < ix.k && cs[i] < |ix.counts| && ix.counts[cs[i]] > 0
  }

  ghost predicate ValidProbes(ix: Index, ps: seq<Probe>) {
    forall i :: 0 <= i < |ps| ==>
      ps[i].cluster == U32_MAX
      || (0 <= ps[i].cluster < ix.k && ps[i].cluster < |ix.counts| && ix.counts[ps[i].cluster] > 0)
  }

  /** The stored vectors of the clusters `cs`, in scan order. */
  ghost function Items(ix: Index, q: seq<int>, cs: seq<int>): seq<Item>
    requires Shape(ix) && |q| == PADDED && Clusters(ix, cs)
  {
    if cs == [] then []
    else Items(ix, q, cs[..|cs| - 1]) + ClusterItems(ix, q, cs[|cs| - 1])
  }

  /** The five kept, the clusters covered (scanned or pruned) in order, and whether a repair was cut short. */
  datatype State = State(best: seq<Item>, covered: seq<int>, cut: bool)

  const START: State := State(EMPTY, [], false)

  ghost function Cover(ix: Index, q: seq<int>, st: State, c: nat): (r: State)
    requires Shape(ix) && |q| == PADDED && c < ix.k && |st.best| == TOP_K
    ensures |r.best| == TOP_K && r.covered == st.covered + [c] && r.cut == st.cut
  {
    State(Scan(st.best, ClusterItems(ix, q, c)), st.covered + [c], st.cut)
  }

  /** A cluster is pruned when its box bound does not beat the threshold, and scanned otherwise. */
  ghost function PruneOrScan(ix: Index, q: seq<int>, st: State, c: nat): (r: State)
    requires Shape(ix) && |q| == PADDED && c < ix.k && |st.best| == TOP_K
    ensures |r.best| == TOP_K && r.covered == st.covered + [c] && r.cut == st.cut
  {
    if Bound(ix, q, c) >= Threshold(st.best) then st.(covered := st.covered + [c]) else Cover(ix, q, st, c)
  }

  ghost function Initial(ix: Index, q: seq<int>, ps: seq<Probe>, n: nat): (r: State)
    requires Shape(ix) && |q| == PADDED && n <= |ps| && ValidProbes(ix, ps)
    requires forall i :: 0 <= i < n ==> ps[i].cluster != U32_MAX
    ensures |r.best| == TOP_K
  {
    if n == 0 then START else Cover(ix, q, Initial(ix, q, ps, n - 1), ps[n - 1].cluster)
  }

  predicate Settled(best: seq<Item>)
    requires |best| == TOP_K
  {
    (Frauds(best) < REPAIR_MIN || Frauds(best) > REPAIR_MAX) && Threshold(best) <= EARLY_DIST
  }

  /** The repair over the remaining probes; it stops early when the answer looks settled after a scan. */
  ghost function Fast(ix: Index, q: seq<int>, ps: seq<Probe>, pi: nat, st: State): (r: State)
    requires Shape(ix) && |q| == PADDED && ValidProbes(ix, ps) && |st.best| == TOP_K
    ensures |r.best| == TOP_K
    decreases |ps| - pi
  {
    if pi >= |ps| || ps[pi].cluster == U32_MAX then st
    else
      var c := ps[pi].cluster;
      var next := PruneOrScan(ix, q, st, c);
      if Bound(ix, q, c) < Threshold(st.best) && Settled(next.best) then next.(cut := true)
      else Fast(ix, q, ps, pi + 1, next)
  }

  /** The repair over every nonempty cluster that was not taken as a probe. */
  ghost function Full(ix: Index, q: seq<int>, taken: set<int>, ci: nat, st: State): (r: State)
    requires Shape(ix) && |q| == PADDED && |st.best| == TOP_K
    ensures |r.best| == TOP_K
    decreases ix.k - ci
  {
    if ci >= ix.k then st
    else if ix.counts[ci] == 0 || ci in taken then Full(ix, q, taken, ci + 1, st)
    else Full(ix, q, taken, ci + 1, PruneOrScan(ix, q, st, ci))
  }

  datatype Exit = AfterInitial | AfterFast | AfterFull

  datatype Outcome = Outcome(state: State, exit: Exit)

  /** The whole search after the probes are chosen. */
  ghost function RunWith(ix: Index, q: seq<int>, ps: seq<Probe>): (r: Outcome)
    requires Shape(ix) && |q| == PADDED && ValidProbes(ix, ps)
    requires forall i :: 0 <= i < |ps| ==> ps[i].cluster != U32_MAX
    ensures |r.state.best| == TOP_K
  {
    var first := Initial(ix, q, ps, Min(NPROBE, |ps|));
    if Frauds(first.best) == TOP_K && Threshold(first.best) <= EARLY_DIST then Outcome(first, AfterInitial)
    else
      var fast := Fast(ix, q, ps, NPROBE, first);
      if Frauds(fast.best) > REPAIR_MAX then Outcome(fast, AfterFast)
      else Outcome(Full(ix, q, Taken(ps), 0, fast), AfterFull)
  }

  // ---- the probes are clusters, each once ----

  /** A list of candidates below `n`: nonempty clusters in order, none missing. */
  ghost predicate CandidatesBelow(ix: Index, q: seq<int>, n: nat, ps: seq<Probe>)
    requires Shape(ix) && |q| == PADDED && n <= ix.k
  {
    && (forall i :: 0 <= i < |ps| ==>
         && 0 <= ps[i].cluster < n && ix.counts[ps[i].cluster] > 0
         && ps[i] == Candidate(ix, q, ps[i].cluster))
    && (forall i, j :: 0 <= i < j < |ps| ==> ps[i].cluster < ps[j].cluster)
    && (forall c :: 0 <= c < n && ix.counts[c] > 0 ==> Candidate(ix, q, c) in ps)
  }

  lemma CandidatesNext(ix: Index, q: seq<int>, n: nat, next: nat, ps: seq<Probe>)
    requires Shape(ix) && |q| == PADDED && next == n + 1 <= ix.k && CandidatesBelow(ix, q, n, ps)
    ensures ix.counts[n] == 0 ==> CandidatesBelow(ix, q, next, ps)
    ensures ix.counts[n] > 0 ==> CandidatesBelow(ix, q, next, ps + [Candidate(ix, q, n)])
  {
    hide OffsetsOk, Candidate;
    var x := Candidate(ix, q, n);
    assert x.cluster == n by { CandidateCluster(ix, q, n); }
    var more := ps + [x];
    assert forall c :: c in ps ==> c in more;
    assert more[|ps|] == x;
  }

  lemma CandidateCluster(ix: Index, q: seq<int>, ci: nat)
    requires Shape(ix) && |q| == PADDED && ci < ix.k
    ensures Candidate(ix, q, ci).cluster == ci
  {}

  lemma NoCandidates(ix: Index, q: seq<int>)
    requires Shape(ix) && |q| == PADDED
    ensures CandidatesBelow(ix, q, 0, [])
  {}

  lemma {:induction false} CandidatesAre(ix: Index, q: seq<int>, n: nat)
    requires Shape(ix) && |q| == PADDED && n <= ix.k
    ensures CandidatesBelow(ix, q, n, Candidates(ix, q, n))
  {
    hide CandidatesBelow;
    if n == 0 {
      NoCandidates(ix, q);
    } else {
      var m := n - 1;
      CandidatesAre(ix, q, m);
      CandidatesNext(ix, q, m, n, Candidates(ix, q, m));
    }
  }

  /** What every list of probes the heap can leave behind has in common. */
  ghost predicate ProperProbes(ix: Index, q: seq<int>, ps: seq<Probe>)
    requires Shape(ix) && |q| == PADDED
  {
    && AscendingFrom(ps, 0)
    && (forall i :: 0 <= i < |ps| ==>
         0 <= ps[i].cluster < ix.k && ix.counts[ps[i].cluster] > 0 && ps[i] == Candidate(ix, q, ps[i].cluster))
    && (forall i, j :: 0 <= i < j < |ps| ==> ps[i].cluster != ps[j].cluster)
  }

  lemma DistinctBySubmultiset(s: seq<Probe>, t: seq<Probe>)
    requires multiset(s) <= multiset(t)
    requires forall i, j :: 0 <= i < j < |t| ==> t[i].cluster != t[j].cluster
    ensures forall i, j :: 0 <= i < j < |s| ==> s[i].cluster != s[j].cluster
  {
    forall i, j | 0 <= i < j < |s| ensures s[i].cluster != s[j].cluster {
      assert s[i] in multiset(s) && s[j] in multiset(s);
      var a := InMultiset(t, s[i]);
      var b := InMultiset(t, s[j]);
      if a == b {
        TwiceIn(s, i, j);
        OnceIn(t, a);
        assert false;
      }
    }
  }

  lemma KeptAreProper(ix: Index, q: seq<int>, ps: seq<Probe>, dropped: multiset<Probe>)
    requires Shape(ix) && |q| == PADDED
    requires AscendingFrom(ps, 0) && KeepsNearest(ps, Candidates(ix, q, ix.k), dropped)
    ensures ProperProbes(ix, q, ps)
  {
    var cands := Candidates(ix, q, ix.k);
    CandidatesAre(ix, q, ix.k);
    forall i | 0 <= i < |ps|
      ensures 0 <= ps[i].cluster < ix.k && ix.counts[ps[i].cluster] > 0
      ensures ps[i] == Candidate(ix, q, ps[i].cluster)
    {
      assert ps[i] in multiset(ps);
      var k := InMultiset(cands, ps[i]);
    }
    DistinctBySubmultiset(ps, cands);
  }

  lemma ProbesProper(ix: Index, q: seq<int>)
    requires Shape(ix) && |q| == PADDED
    ensures ProperProbes(ix, q, ProbesOf(ix, q))
    ensures KeepsNearest(ProbesOf(ix, q), Candidates(ix, q, ix.k), Dropped(Candidates(ix, q, ix.k)))
  {
    NearestIsSorted(Candidates(ix, q, ix.k));
    KeptAreProper(ix, q, ProbesOf(ix, q), Dropped(Candidates(ix, q, ix.k)));
  }

  ghost function Run(ix: Index, q: seq<int>): (r: Outcome)
    requires Shape(ix) && |q| == PADDED
    ensures |r.state.best| == TOP_K
  {
    ProbesProper(ix, q);
    RunWith(ix, q, ProbesOf(ix, q))
  }
}
