/** The portable block kernels, in 32- and 64-bit machine arithmetic. */
module Kernels {
  import opened Machine
  import opened Geometry
  import opened BlockLayout

  ghost predicate HoldsBlock(codes: seq<int>, block: nat) {
    (block + 1) * BLOCK_CODES <= |codes|
  }

  lemma LaneSlot(codes: seq<int>, block: nat, lane: nat)
    requires HoldsBlock(codes, block) && lane < LANES
    ensures (block * LANES + lane) / LANES == block && (block * LANES + lane) % LANES == lane
    ensures HoldsSlot(codes, block * LANES + lane)
  {}

  ghost function LaneVector(codes: seq<int>, block: nat, lane: nat): (v: seq<int>)
    requires HoldsBlock(codes, block) && lane < LANES
    ensures |v| == PADDED
  {
    LaneSlot(codes, block, lane);
    VectorAt(codes, block * LANES + lane)
  }

  /** The true squared distances of the eight lanes of a block. */
  ghost function BlockDists(codes: seq<int>, block: nat, q: seq<int>): (ds: seq<int>)
    requires HoldsBlock(codes, block) && |q| == PADDED
    ensures |ds| == LANES
    ensures forall lane :: 0 <= lane < LANES ==> ds[lane] == Dist(q, LaneVector(codes, block, lane))
  {
    seq(LANES, lane requires 0 <= lane < LANES => Dist(q, LaneVector(codes, block, lane)))
  }

  /** Every lane is already at or above the threshold after the first `pairs` pairs. */
  ghost predicate AllLanesOver(codes: seq<int>, block: nat, q: seq<int>, threshold: int, pairs: nat)
    requires HoldsBlock(codes, block) && |q| == PADDED && pairs <= PAIRS
  {
    forall lane :: 0 <= lane < LANES ==> PartialDist(q, LaneVector(codes, block, lane), 2 * pairs) >= threshold
  }

  /** The two checkpoints of the pruning kernel: after the third and the fifth pair. */
  ghost predicate BlockPruned(codes: seq<int>, block: nat, q: seq<int>, threshold: int)
    requires HoldsBlock(codes, block) && |q| == PADDED
  {
    AllLanesOver(codes, block, q, threshold, 3) || AllLanesOver(codes, block, q, threshold, 5)
  }

  /** A pruned block holds no lane, padding included, below the threshold. */
  lemma PrunedBlockIsFar(codes: seq<int>, block: nat, q: seq<int>, threshold: int, lane: nat)
    requires HoldsBlock(codes, block) && |q| == PADDED && lane < LANES
    requires BlockPruned(codes, block, q, threshold)
    ensures BlockDists(codes, block, q)[lane] >= threshold
  {
    var v := LaneVector(codes, block, lane);
    PartialDistGrows(q, v, 6, PADDED);
    PartialDistGrows(q, v, 10, PADDED);
  }

  /** Where lane `lane` of pair `p` starts in the code array. */
  function PairOffset(block: nat, p: nat, lane: nat): nat {
    block * PADDED * LANES + p * LANES * 2 + lane * 2
  }

  lemma PairCodes(codes: seq<int>, block: nat, lane: nat, p: nat)
    requires HoldsBlock(codes, block) && lane < LANES && p < PAIRS
    ensures var off := PairOffset(block, p, lane);
            && off + 1 < |codes|
            && codes[off] == LaneVector(codes, block, lane)[2 * p]
            && codes[off + 1] == LaneVector(codes, block, lane)[2 * p + 1]
  {
    LaneSlot(codes, block, lane);
    var off := PairOffset(block, p, lane);
    assert Address(block * LANES + lane, 2 * p) == off;
    assert Address(block * LANES + lane, 2 * p + 1) == off + 1;
  }

  /** A squared difference as the kernel computes it, in 32 bits. */
  function SquaredDiff32(x: int, a: int): int {
    Wrap32(Square(Wrap32(x - a)))
  }

  lemma SquaredDiffExact(x: int, a: int)
    requires -QUANT_MAX <= x <= QUANT_MAX && -QUANT_MAX <= a <= QUANT_MAX
    ensures SquaredDiff32(x, a) == Square(x - a) <= 400_000_000
  {
    SquareBound(x - a, 20_000);
  }

  /** One pair of dimensions: the two squares are widened and added in 64 bits. */
  function PairTerm(q0: int, q1: int, a: int, b: int): int {
    SquaredDiff32(q0, a) + SquaredDiff32(q1, b)
  }

  /** Between bounded vectors nothing wraps, and the term is what two dimensions add to the distance. */
  lemma PairTermExact(q: seq<int>, v: seq<int>, p: nat)
    requires |q| == PADDED && |v| == PADDED && p < PAIRS && Bounded(q) && Bounded(v)
    ensures var s := PairTerm(q[2 * p], q[2 * p + 1], v[2 * p], v[2 * p + 1]);
            && 0 <= s <= 800_000_000
            && PartialDist(q, v, 2 * p + 2) == PartialDist(q, v, 2 * p) + s
  {
    SquaredDiffExact(q[2 * p], v[2 * p]);
    SquaredDiffExact(q[2 * p + 1], v[2 * p + 1]);
    assert PartialDist(q, v, 2 * p + 1) == PartialDist(q, v, 2 * p) + Square(q[2 * p] - v[2 * p]);
  }

  /** The two accumulators of a lane add up to its distance over the first `pairs` pairs. */
  ghost predicate LaneSum(codes: seq<int>, block: nat, q: seq<int>, lane: nat, pairs: nat, x: int, y: int)
    requires HoldsBlock(codes, block) && |q| == PADDED && pairs <= PAIRS && lane < LANES
  {
    x >= 0 && y >= 0 && x + y == PartialDist(q, LaneVector(codes, block, lane), 2 * pairs)
  }

  ghost predicate LaneSums(codes: seq<int>, block: nat, q: seq<int>, pairs: nat, acc0: seq<int>, acc1: seq<int>)
    requires HoldsBlock(codes, block) && |q| == PADDED && pairs <= PAIRS
    requires |acc0| == LANES && |acc1| == LANES
  {
    forall lane :: 0 <= lane < LANES ==> LaneSum(codes, block, q, lane, pairs, acc0[lane], acc1[lane])
  }

  /** Adding a pair to either accumulator stays within 64 bits and keeps the lane's sum. */
  lemma LaneStep(codes: seq<int>, block: nat, q: seq<int>, lane: nat, p: nat, x: int, y: int)
    requires HoldsBlock(codes, block) && |q| == PADDED && Bounded(q) && Bounded(codes) && lane < LANES && p < PAIRS
    requires LaneSum(codes, block, q, lane, p, x, y)
    ensures var off := PairOffset(block, p, lane);
            && off + 1 < |codes|
            && var s := PairTerm(q[2 * p], q[2 * p + 1], codes[off], codes[off + 1]);
            && LaneSum(codes, block, q, lane, p + 1, Wrap64(x + s), y)
            && LaneSum(codes, block, q, lane, p + 1, x, Wrap64(y + s))
  {
    var v := LaneVector(codes, block, lane);
    LaneSlot(codes, block, lane);
    VectorAtBounded(codes, block * LANES + lane);
    PairCodes(codes, block, lane, p);
    PairTermExact(q, v, p);
    PartialDistBound(q, v, 2 * p);
    var s := PairTerm(q[2 * p], q[2 * p + 1], v[2 * p], v[2 * p + 1]);
  }

  /** One lane of one pair: even pairs go to the first accumulator, odd ones to the second. */
  method AddLane(codes: seq<int>, block: nat, q: seq<int>, p: nat, lane: nat, x: int, y: int)
    returns (x': int, y': int)
    requires HoldsBlock(codes, block) && |q| == PADDED && p < PAIRS && Bounded(q) && Bounded(codes) && lane < LANES
    requires LaneSum(codes, block, q, lane, p, x, y)
    ensures LaneSum(codes, block, q, lane, p + 1, x', y')
  {
    LaneStep(codes, block, q, lane, p, x, y);
    var off := PairOffset(block, p, lane);
    var s := PairTerm(q[2 * p], q[2 * p + 1], codes[off], codes[off + 1]);
    x', y' := x, y;
    if p % 2 == 0 {
      x' := Wrap64(x + s);
    } else {
      y' := Wrap64(y + s);
    }
  }

  /** The body shared by both kernels: adds pair `p` of every lane to one of the accumulators. */
  method AddPair(codes: seq<int>, block: nat, q: seq<int>, p: nat, acc0: array<int>, acc1: array<int>)
    requires HoldsBlock(codes, block) && |q| == PADDED && p < PAIRS && Bounded(q) && Bounded(codes)
    requires acc0 != acc1 && acc0.Length == LANES && acc1.Length == LANES
    requires LaneSums(codes, block, q, p, acc0[..], acc1[..])
    modifies acc0, acc1
    ensures LaneSums(codes, block, q, p + 1, acc0[..], acc1[..])
  {
    for lane := 0 to LANES
      invariant forall i :: 0 <= i < lane ==> LaneSum(codes, block, q, i, p + 1, acc0[i], acc1[i])
      invariant forall i :: lane <= i < LANES ==> LaneSum(codes, block, q, i, p, acc0[i], acc1[i])
    {
      acc0[lane], acc1[lane] := AddLane(codes, block, q, p, lane, acc0[lane], acc1[lane]);
    }
  }

  method Merge(acc0: array<int>, acc1: array<int>, ghost codes: seq<int>, ghost block: nat, ghost q: seq<int>)
    returns (out: seq<int>)
    requires HoldsBlock(codes, block) && |q| == PADDED && Bounded(q) && Bounded(codes)
    requires acc0.Length == LANES && acc1.Length == LANES
    requires LaneSums(codes, block, q, PAIRS, acc0[..], acc1[..])
    ensures out == BlockDists(codes, block, q)
  {
    out := [];
    for lane := 0 to LANES
      invariant |out| == lane
      invariant forall i :: 0 <= i < lane ==> out[i] == Dist(q, LaneVector(codes, block, i))
    {
      LaneSlot(codes, block, lane);
      VectorAtBounded(codes, block * LANES + lane);
      PartialDistBound(q, LaneVector(codes, block, lane), PADDED);
      assert acc0[..][lane] == acc0[lane] && acc1[..][lane] == acc1[lane];
      out := out + [Wrap64(acc0[lane] + acc1[lane])];
    }
  }

  lemma NoSums(codes: seq<int>, block: nat, q: seq<int>, acc0: seq<int>, acc1: seq<int>)
    requires HoldsBlock(codes, block) && |q| == PADDED && |acc0| == LANES && |acc1| == LANES
    requires forall i :: 0 <= i < LANES ==> acc0[i] == 0 && acc1[i] == 0
    ensures LaneSums(codes, block, q, 0, acc0, acc1)
  {}

  method BlkDist(codes: seq<int>, block: nat, q: seq<int>) returns (out: seq<int>)
    requires HoldsBlock(codes, block) && |q| == PADDED && Bounded(q) && Bounded(codes)
    ensures out == BlockDists(codes, block, q)
  {
    hide HoldsBlock, Bounded, LaneSums, BlockDists;
    var acc0 := new int[LANES](_ => 0);
    var acc1 := new int[LANES](_ => 0);
    NoSums(codes, block, q, acc0[..], acc1[..]);
    for p := 0 to PAIRS
      invariant LaneSums(codes, block, q, p, acc0[..], acc1[..])
    {
      AddPair(codes, block, q, p, acc0, acc1);
    }
    out := Merge(acc0, acc1, codes, block, q);
  }

  lemma SumsAgainstThreshold(codes: seq<int>, block: nat, q: seq<int>, pairs: nat,
                             acc0: seq<int>, acc1: seq<int>, threshold: int)
    requires HoldsBlock(codes, block) && |q| == PADDED && pairs <= PAIRS
    requires |acc0| == LANES && |acc1| == LANES && LaneSums(codes, block, q, pairs, acc0, acc1)
    ensures AllLanesOver(codes, block, q, threshold, pairs)
       <==> forall lane :: 0 <= lane < LANES ==> acc0[lane] + acc1[lane] >= threshold
  {
    forall lane | 0 <= lane < LANES
      ensures acc0[lane] + acc1[lane] == PartialDist(q, LaneVector(codes, block, lane), 2 * pairs)
    {
      assert LaneSum(codes, block, q, lane, pairs, acc0[lane], acc1[lane]);
    }
  }

  /** The early test of the pruning kernel: stops at the first lane under the threshold. */
  method AllOver(acc0: array<int>, acc1: array<int>, threshold: int) returns (all: bool)
    requires acc0.Length == LANES && acc1.Length == LANES
    ensures all <==> forall lane :: 0 <= lane < LANES ==> acc0[lane] + acc1[lane] >= threshold
  {
    for lane := 0 to LANES
      invariant forall i :: 0 <= i < lane ==> acc0[i] + acc1[i] >= threshold
    {
      if acc0[lane] + acc1[lane] < threshold {
        return false;
      }
    }
    return true;
  }

  method BlkDistPrune(codes: seq<int>, block: nat, q: seq<int>, threshold: int)
    returns (out: seq<int>, pruned: bool)
    requires HoldsBlock(codes, block) && |q| == PADDED && Bounded(q) && Bounded(codes)
    ensures pruned <==> BlockPruned(codes, block, q, threshold)
    ensures out == if pruned then seq(LANES, _ => 0) else BlockDists(codes, block, q)
  {
    hide HoldsBlock, Bounded, LaneSums, AllLanesOver, BlockDists;
    var acc0 := new int[LANES](_ => 0);
    var acc1 := new int[LANES](_ => 0);
    NoSums(codes, block, q, acc0[..], acc1[..]);
    for p := 0 to PAIRS
      invariant LaneSums(codes, block, q, p, acc0[..], acc1[..])
      invariant p > 2 ==> !AllLanesOver(codes, block, q, threshold, 3)
      invariant p > 4 ==> !AllLanesOver(codes, block, q, threshold, 5)
    {
      AddPair(codes, block, q, p, acc0, acc1);
      if p == 2 || p == 4 {
        var all := AllOver(acc0, acc1, threshold);
        SumsAgainstThreshold(codes, block, q, p + 1, acc0[..], acc1[..], threshold);
        if all {
          return seq(LANES, _ => 0), true;
        }
      }
    }
    out := Merge(acc0, acc1, codes, block, q);
    pruned := false;
  }
}
