/** The search itself: in-place updates of the probe heap, the seen mask and the five nearest. */
module Search {
  import opened Sequences
  import opened Machine
  import opened Geometry
  import opened BlockLayout
  import opened Kernels
  import opened Avx2
  import opened TopFive
  import opened Scoreboard
  import opened ProbeHeap
  import opened Probes
  import opened SeenMask
  import opened Index
  import opened SearchSpec

  /** The two builds of the program differ only in their kernels. */
  datatype Build = Portable | Amd64

  method BlockDistances(build: Build, codes: seq<int>, block: nat, q: seq<int>) returns (out: seq<int>)
    requires HoldsBlock(codes, block) && Query(q) && Bounded(codes)
    ensures out == BlockDists(codes, block, q)
  {
    match build
    case Portable => out := BlkDist(codes, block, q);
    case Amd64 => out := BlkDistAvx2(codes, block, q);
  }

  method BlockDistancesPruned(build: Build, codes: seq<int>, block: nat, q: seq<int>, threshold: int)
    returns (out: seq<int>, pruned: bool)
    requires HoldsBlock(codes, block) && Query(q) && Bounded(codes)
    ensures pruned <==> BlockPruned(codes, block, q, threshold)
    ensures !pruned ==> out == BlockDists(codes, block, q)
  {
    match build
    case Portable => out, pruned := BlkDistPrune(codes, block, q, threshold);
    case Amd64 => out, pruned := BlkDistPruneAvx2(codes, block, q, threshold);
  }

  /** Values of 16 bits. */
  ghost predicate Shorts(v: seq<int>) {
    forall j :: 0 <= j < |v| ==> -0x8000 <= v[j] < 0x8000
  }

  /** A gap between 16-bit values fits 32 bits, and its square 64. */
  lemma GapFits(x: int, lo: int, hi: int)
    requires -0x8000 <= x < 0x8000 && -0x8000 <= lo < 0x8000 && -0x8000 <= hi < 0x8000
    ensures 0 <= Square(Gap(x, lo, hi)) <= 4_294_836_225
  {
    SquareBound(Gap(x, lo, hi), 65535);
  }

  /** The portable bound: 32-bit gaps, squared and added in 64 bits. */
  method BboxLowerBound(q: seq<int>, lo: seq<int>, hi: seq<int>) returns (sum: int)
    requires |q| == |lo| == |hi| == PADDED && Shorts(q) && Shorts(lo) && Shorts(hi)
    ensures sum == BoxBound(q, lo, hi, PADDED)
  {
    hide Square;
    sum := 0;
    for i := 0 to PADDED
      invariant sum == BoxBound(q, lo, hi, i) && 0 <= sum <= i * 4_294_836_225
    {
      var gap := 0;
      if q[i] < lo[i] {
        gap := Wrap32(lo[i] - q[i]);
      } else if q[i] > hi[i] {
        gap := Wrap32(q[i] - hi[i]);
      }
      GapFits(q[i], lo[i], hi[i]);
      sum := Wrap64(sum + Wrap64(Square(gap)));
    }
  }

  method BoxBoundOf(build: Build, ix: Index, q: seq<int>, c: nat) returns (bound: int)
    requires WF(ix) && Query(q) && c < ix.k && ix.counts[c] > 0
    ensures bound == Bound(ix, q, c)
  {
    var lo, hi := BoxLow(ix, c), BoxHigh(ix, c);
    match build
    case Portable => bound := BboxLowerBound(q, lo, hi);
    case Amd64 =>
      assert InBox(StoredVector(ix, c, 0), lo, hi);
      bound := BboxLowerBoundAvx2(q, lo, hi);
  }

  lemma BlockInRange(ix: Index, c: nat, block: nat)
    requires Shape(ix) && c < ix.k && ix.offsets[c] <= block < ix.offsets[c + 1]
    ensures HoldsBlock(ix.vectors, block) && (block + 1) * LANES <= |ix.labels|
  {
    OffsetsMonotone(ix.offsets, ix.counts, c + 1, ix.k);
  }

  /** Lane `lane` of the cluster's block number `b` is its item `8 * b + lane`. */
  lemma LaneItem(ix: Index, q: seq<int>, c: nat, block: nat, lane: nat)
    requires Shape(ix) && |q| == PADDED && c < ix.k && ix.offsets[c] <= block < ix.offsets[c + 1] && lane < LANES
    requires (block - ix.offsets[c]) * LANES + lane < ix.counts[c]
    ensures HoldsBlock(ix.vectors, block) && block * LANES + lane < |ix.labels|
    ensures ClusterItems(ix, q, c)[(block - ix.offsets[c]) * LANES + lane]
              == Item(BlockDists(ix.vectors, block, q)[lane], ix.labels[block * LANES + lane], block * LANES + lane)
  {
    BlockInRange(ix, c, block);
    LaneSlot(ix.vectors, block, lane);
    var j := (block - ix.offsets[c]) * LANES + lane;
    assert Slot(ix, c, j) == block * LANES + lane;
  }

  /** A pruned block contributes nothing to the five. */
  lemma PrunedBlockScan(ix: Index, q: seq<int>, c: nat, block: nat, best: seq<Item>, from: nat, to: nat)
    requires Shape(ix) && |q| == PADDED && c < ix.k && ix.offsets[c] <= block < ix.offsets[c + 1]
    requires |best| == TOP_K && from == (block - ix.offsets[c]) * LANES && from <= to <= ix.counts[c]
    requires to <= from + LANES
    requires HoldsBlock(ix.vectors, block) && BlockPruned(ix.vectors, block, q, Threshold(best))
    ensures Scan(best, ClusterItems(ix, q, c)[from..to]) == best
  {
    var xs := ClusterItems(ix, q, c)[from..to];
    forall i | 0 <= i < |xs| ensures xs[i].dist >= Threshold(best) {
      LaneItem(ix, q, c, block, i);
      PrunedBlockIsFar(ix.vectors, block, q, Threshold(best), i);
    }
    ScanFar(best, xs);
  }

  /** The items that the lanes of a block stand for. */
  ghost predicate LaneItems(labels: seq<int>, block: nat, dists: seq<int>, part: seq<Item>) {
    && |part| <= |dists| && block * LANES + |part| <= |labels|
    && forall lane :: 0 <= lane < |part| ==>
         part[lane] == Item(dists[lane], labels[block * LANES + lane], block * LANES + lane)
  }

  lemma BlockItems(ix: Index, q: seq<int>, c: nat, block: nat, from: nat, to: nat)
    requires Shape(ix) && |q| == PADDED && c < ix.k && ix.offsets[c] <= block < ix.offsets[c + 1]
    requires HoldsBlock(ix.vectors, block)
    requires from == (block - ix.offsets[c]) * LANES && from <= to <= ix.counts[c] && to <= from + LANES
    ensures LaneItems(ix.labels, block, BlockDists(ix.vectors, block, q), ClusterItems(ix, q, c)[from..to])
  {
    BlockInRange(ix, c, block);
    var part := ClusterItems(ix, q, c)[from..to];
    forall lane | 0 <= lane < |part|
      ensures part[lane] == Item(BlockDists(ix.vectors, block, q)[lane], ix.labels[block * LANES + lane],
                                 block * LANES + lane)
    {
      LaneItem(ix, q, c, block, lane);
    }
  }

  /** Offers the first `lanes` items of a block to the five, in order, when they beat the threshold. */
  method TakeBlock(labels: seq<int>, block: nat, dists: seq<int>, lanes: nat, best: Best, ghost part: seq<Item>)
    requires LaneItems(labels, block, dists, part) && |part| == lanes
    requires best.Valid()
    modifies best, best.dists, best.labels
    ensures best.Valid() && best.items == Scan(old(best.items), part)
  {
    ghost var was := best.items;
    for lane := 0 to lanes
      invariant best.Valid() && best.items == Scan(was, part[..lane])
    {
      ScanSnoc(was, part, lane);
      var d := dists[lane];
      if d < best.dists[TOP_K - 1] {
        best.InsertBest(d, labels[block * LANES + lane], block * LANES + lane);
      }
    }
    assert part[..lanes] == part;
  }

  /** Scans one cluster block by block; the result is a scan of its items one by one. */
  method ScanCluster(build: Build, ix: Index, q: seq<int>, c: nat, best: Best)
    requires WF(ix) && Query(q) && c < ix.k && best.Valid()
    modifies best, best.dists, best.labels
    ensures best.Valid() && best.items == Scan(old(best.items), ClusterItems(ix, q, c))
  {
    var start := ix.offsets[c];
    var end := ix.offsets[c + 1];
    var total := ix.counts[c];
    ghost var xs := ClusterItems(ix, q, c);
    ghost var was := best.items;
    if total == 0 {
      return;
    }
    var processed := 0;
    for block := start to end
      invariant best.Valid()
      invariant processed == Min(total, (block - start) * LANES)
      invariant block < end ==> processed == (block - start) * LANES
      invariant best.items == Scan(was, xs[..processed])
    {
      BlockInRange(ix, c, block);
      var threshold := best.dists[TOP_K - 1];
      var dists, pruned := BlockDistancesPruned(build, ix.vectors, block, q, threshold);
      var lanes := LANES;
      if total - processed < lanes {
        lanes := total - processed;
      }
      ghost var from := processed;
      processed := processed + lanes;
      ScanSplit(was, xs, from, processed);
      if pruned {
        PrunedBlockScan(ix, q, c, block, best.items, from, processed);
      } else {
        BlockItems(ix, q, c, block, from, processed);
        TakeBlock(ix.labels, block, dists, lanes, best, xs[from..processed]);
      }
    }
    assert xs[..processed] == xs;
  }

  /** The heap after the clusters below `n`. */
  ghost function SelectedBelow(ix: Index, q: seq<int>, n: nat): (h: seq<Probe>)
    requires Shape(ix) && |q| == PADDED && n <= ix.k
    ensures |h| <= MAX_PROBES
  {
    Select(Candidates(ix, q, n))
  }

  lemma SelectNext(ix: Index, q: seq<int>, n: nat)
    requires Shape(ix) && |q| == PADDED && n < ix.k
    ensures ix.counts[n] == 0 ==> SelectedBelow(ix, q, n + 1) == SelectedBelow(ix, q, n)
    ensures ix.counts[n] != 0 ==>
              SelectedBelow(ix, q, n + 1) == InsertProbe(SelectedBelow(ix, q, n), Candidate(ix, q, n))
  {
    var ps := Candidates(ix, q, n);
    assert (ps + [Candidate(ix, q, n)])[..|ps|] == ps;
  }

  lemma SelectedEnds(ix: Index, q: seq<int>)
    requires Shape(ix) && |q| == PADDED
    ensures SelectedBelow(ix, q, 0) == []
    ensures HeapSort(SelectedBelow(ix, q, ix.k), |SelectedBelow(ix, q, ix.k)|) == ProbesOf(ix, q)
  {}

  lemma CandidateDistance(ix: Index, q: seq<int>, ci: nat, block: nat, lane: nat)
    requires Shape(ix) && |q| == PADDED && lane < LANES && ci == block * LANES + lane < ix.k
    ensures HoldsBlock(ix.centroids, block)
    ensures Candidate(ix, q, ci) == Probe(ci, BlockDists(ix.centroids, block, q)[lane])
  {
    CentroidSlot(ix, ci);
    LaneSlot(ix.centroids, block, lane);
  }

  method OfferCluster(ix: Index, ghost q: seq<int>, ci: nat, dist: int, list: ProbeList, ghost next: nat)
    requires WF(ix) && Query(q) && ci < ix.k && next == ci + 1 && Candidate(ix, q, ci) == Probe(ci, dist)
    requires list.Valid() && list.Contents() == SelectedBelow(ix, q, ci)
    modifies list, list.heap
    ensures list.Valid() && list.Contents() == SelectedBelow(ix, q, next)
  {
    ghost var h := SelectedBelow(ix, q, ci);
    SelectNext(ix, q, ci);
    if ix.counts[ci] != 0 {
      list.Insert(ci, dist);
      assert list.Contents() == InsertProbe(h, Probe(ci, dist));
    }
  }

  /** Offers the nonempty clusters of one centroid block to the heap. */
  method OfferBlock(ix: Index, ghost q: seq<int>, block: nat, dists: seq<int>, lanes: nat, list: ProbeList,
                    ghost from: nat, ghost to: nat)
    requires WF(ix) && Query(q) && lanes <= LANES && block * LANES + lanes <= ix.k
    requires HoldsBlock(ix.centroids, block) && dists == BlockDists(ix.centroids, block, q)
    requires from == block * LANES && to == from + lanes
    requires list.Valid() && list.Contents() == SelectedBelow(ix, q, from)
    modifies list, list.heap
    ensures list.Valid() && list.Contents() == SelectedBelow(ix, q, to)
  {
    hide SelectedBelow, BlockDists;
    var ci := block * LANES;
    for lane := 0 to lanes
      invariant ci == from + lane
      invariant list.Valid() && list.Contents() == SelectedBelow(ix, q, ci)
    {
      CandidateDistance(ix, q, ci, block, lane);
      ghost var next := ci + 1;
      OfferCluster(ix, q, ci, dists[lane], list, next);
      ci := ci + 1;
    }
    assert ci == to;
  }

  method SelectProbes(build: Build, ix: Index, q: seq<int>) returns (list: ProbeList)
    requires WF(ix) && Query(q)
    ensures fresh(list) && fresh(list.heap) && list.Valid() && list.Contents() == ProbesOf(ix, q)
  {
    list := new ProbeList();
    SelectedEnds(ix, q);
    var ncb := CeilDiv8(ix.k);
    ghost var done := 0;
    for cb := 0 to ncb
      invariant fresh(list) && fresh(list.heap) && list.Valid()
      invariant done == Min(ix.k, cb * LANES) && list.Contents() == SelectedBelow(ix, q, done)
    {
      var dists := BlockDistances(build, ix.centroids, cb, q);
      var lanes := LANES;
      if ix.k - cb * LANES < lanes {
        lanes := ix.k - cb * LANES;
      }
      ghost var next := done + lanes;
      OfferBlock(ix, q, cb, dists, lanes, list, done, next);
      done := next;
    }
    ghost var h := SelectedBelow(ix, q, ix.k);
    assert list.Contents() == h;
    list.Sort();
    assert list.Contents() == HeapSort(h, |h|);
  }

  /** One probe of the repair: pruned, or scanned and then the end if the answer is settled. */
  lemma FastStep(ix: Index, q: seq<int>, ps: seq<Probe>, pi: nat, st: State)
    requires Shape(ix) && |q| == PADDED && ValidProbes(ix, ps) && |st.best| == TOP_K
    requires pi < |ps| && ps[pi].cluster != U32_MAX
    ensures 0 <= ps[pi].cluster < ix.k && ix.counts[ps[pi].cluster] > 0
    ensures var c := ps[pi].cluster;
            var next := PruneOrScan(ix, q, st, c);
            && (Bound(ix, q, c) >= Threshold(st.best) ==> next.best == st.best)
            && (Bound(ix, q, c) < Threshold(st.best) ==> next.best == Scan(st.best, ClusterItems(ix, q, c)))
            && Fast(ix, q, ps, pi, st) ==
                 if Bound(ix, q, c) < Threshold(st.best) && Settled(next.best) then next.(cut := true)
                 else Fast(ix, q, ps, pi + 1, next)
  {
    hide Bound, Scan, ClusterItems, Frauds, OffsetsOk;
  }

  lemma FastEnd(ix: Index, q: seq<int>, ps: seq<Probe>, pi: nat, st: State)
    requires Shape(ix) && |q| == PADDED && ValidProbes(ix, ps) && |st.best| == TOP_K
    requires pi < |ps| ==> ps[pi].cluster == U32_MAX
    ensures Fast(ix, q, ps, pi, st) == st
  {
    hide Shape, ValidProbes;
  }

  method RepairFast(build: Build, ix: Index, q: seq<int>, ps: seq<Probe>, best: Best, ghost st: State)
    returns (ghost end: State)
    requires WF(ix) && Query(q) && ValidProbes(ix, ps) && best.Valid() && best.items == st.best
    modifies best, best.dists, best.labels
    ensures best.Valid() && end == Fast(ix, q, ps, NPROBE, st) && best.items == end.best
  {
    hide WF, Query, Fast, PruneOrScan, Bound, Frauds, Scan, ClusterItems;
    Shaped(ix, q);
    end := st;
    var pi := NPROBE;
    while pi < |ps|
      invariant best.Valid() && best.items == end.best
      invariant Fast(ix, q, ps, pi, end) == Fast(ix, q, ps, NPROBE, st)
    {
      var c := ps[pi].cluster;
      if c == U32_MAX {
        break;
      }
      FastStep(ix, q, ps, pi, end);
      var bound := BoxBoundOf(build, ix, q, c);
      if bound >= best.dists[TOP_K - 1] {
        end := PruneOrScan(ix, q, end, c);
        pi := pi + 1;
        continue;
      }
      ScanCluster(build, ix, q, c, best);
      end := PruneOrScan(ix, q, end, c);
      var frauds := best.CountFrauds();
      if frauds < REPAIR_MIN || frauds > REPAIR_MAX {
        if best.dists[TOP_K - 1] <= EARLY_DIST {
          end := end.(cut := true);
          return;
        }
      }
      pi := pi + 1;
    }
    FastEnd(ix, q, ps, pi, end);
  }

  method RepairFull(build: Build, ix: Index, q: seq<int>, ps: seq<Probe>, best: Best, ghost st: State)
    returns (ghost end: State)
    requires WF(ix) && Query(q) && ValidProbes(ix, ps) && best.Valid() && best.items == st.best
    modifies best, best.dists, best.labels
    ensures best.Valid() && end == Full(ix, q, Taken(ps), 0, st) && best.items == end.best
  {
    hide BoxOk, OffsetsOk, Bound, Taken, Seen;
    var mask := MarkProbes(ps);
    ghost var words := mask[..];
    end := st;
    for ci := 0 to ix.k
      invariant mask[..] == words
      invariant best.Valid() && best.items == end.best
      invariant Full(ix, q, Taken(ps), ci, end) == Full(ix, q, Taken(ps), 0, st)
    {
      if ix.counts[ci] == 0 {
        continue;
      }
      if Seen(mask[..], ci) {
        continue;
      }
      end := PruneOrScan(ix, q, end, ci);
      var bound := BoxBoundOf(build, ix, q, ci);
      if bound >= best.dists[TOP_K - 1] {
        continue;
      }
      ScanCluster(build, ix, q, ci, best);
    }
  }

  /** Scans the first probes unconditionally. */
  method ScanInitial(build: Build, ix: Index, q: seq<int>, ps: seq<Probe>, best: Best) returns (ghost st: State)
    requires WF(ix) && Query(q) && ValidProbes(ix, ps) && best.Valid() && best.items == EMPTY
    requires forall i :: 0 <= i < |ps| ==> ps[i].cluster != U32_MAX
    modifies best, best.dists, best.labels
    ensures best.Valid() && st == Initial(ix, q, ps, Min(NPROBE, |ps|)) && best.items == st.best
  {
    var nInitial := NPROBE;
    if |ps| < nInitial {
      nInitial := |ps|;
    }
    for pi := 0 to nInitial
      invariant best.Valid() && best.items == Initial(ix, q, ps, pi).best
    {
      ScanCluster(build, ix, q, ps[pi].cluster, best);
    }
    st := Initial(ix, q, ps, nInitial);
  }

  method Score(build: Build, ix: Index, q: seq<int>, ps: seq<Probe>) returns (frauds: int)
    requires WF(ix) && Query(q) && ValidProbes(ix, ps)
    requires forall i :: 0 <= i < |ps| ==> ps[i].cluster != U32_MAX
    ensures frauds == Frauds(RunWith(ix, q, ps).state.best)
  {
    var best := new Best();
    ghost var st := ScanInitial(build, ix, q, ps, best);
    frauds := best.CountFrauds();
    var tight := best.dists[TOP_K - 1] <= EARLY_DIST;
    if frauds == TOP_K && tight {
      return;
    }
    st := RepairFast(build, ix, q, ps, best, st);
    frauds := best.CountFrauds();
    if frauds <= REPAIR_MAX {
      st := RepairFull(build, ix, q, ps, best, st);
      frauds := best.CountFrauds();
    }
  }

  /** The number of frauds among the nearest: the same on either build. */
  method ScoreQ(build: Build, ix: Index, q: seq<int>) returns (frauds: int)
    requires WF(ix) && Query(q)
    ensures frauds == Frauds(Run(ix, q).state.best)
  {
    var list := SelectProbes(build, ix, q);
    ProbesProper(ix, q);
    frauds := Score(build, ix, q, list.heap[..list.count]);
  }
}
