/**
 * The vector kernels: registers are sequences of lane values, and each instruction wraps to its
 * own lane width. Both builds of the search meet one specification, that of the portable kernels.
 */
module Avx2 {
  import opened Machine
  import opened Geometry
  import opened BlockLayout
  import opened Kernels

  /** VPSUBW: 16-bit lanes, a - b. */
  function SubW(a: seq<int>, b: seq<int>): (r: seq<int>)
    requires |a| == |b|
    ensures |r| == |a|
  {
    seq(|a|, i requires 0 <= i < |a| => Wrap16(a[i] - b[i]))
  }

  /** VPMAXSW: the larger of two signed 16-bit lanes. */
  function MaxSW(a: seq<int>, b: seq<int>): (r: seq<int>)
    requires |a| == |b|
    ensures |r| == |a|
  {
    seq(|a|, i requires 0 <= i < |a| => if a[i] > b[i] then a[i] else b[i])
  }

  /** VPMADDWD of a register with itself: neighbouring squares added in 32 bits. */
  function MaddWD(a: seq<int>): (r: seq<int>)
    requires |a| == 16
    ensures |r| == 8
  {
    seq(8, i requires 0 <= i < 8 => Wrap32(Square(a[2 * i]) + Square(a[2 * i + 1])))
  }

  /** VPADDQ: 64-bit lanes. */
  function AddQ(a: seq<int>, b: seq<int>): (r: seq<int>)
    requires |a| == |b|
    ensures |r| == |a|
  {
    seq(|a|, i requires 0 <= i < |a| => Wrap64(a[i] + b[i]))
  }

  /** VPBROADCASTD of the two query codes of pair `p`. */
  function BroadcastPair(q: seq<int>, p: nat): (r: seq<int>)
    requires |q| == PADDED && p < PAIRS
    ensures |r| == 16
  {
    seq(16, i requires 0 <= i < 16 => q[2 * p + i % 2])
  }

  const ONES: bv64 := 0xFFFF_FFFF_FFFF_FFFF

  /** VPCMPGTQ: all ones in the 64-bit lanes where a > b, signed. */
  function CmpGtQ(a: seq<int>, b: seq<int>): (r: seq<bv64>)
    requires |a| == |b|
    ensures |r| == |a|
  {
    seq(|a|, i requires 0 <= i < |a| => if a[i] > b[i] then ONES else 0)
  }

  /** VPOR. */
  function Or(a: seq<bv64>, b: seq<bv64>): (r: seq<bv64>)
    requires |a| == |b|
    ensures |r| == |a|
  {
    seq(|a|, i requires 0 <= i < |a| => a[i] | b[i])
  }

  /** VPTEST of a register with itself, then JNZ: is any bit set? */
  predicate TestNonZero(a: seq<bv64>) {
    exists i :: 0 <= i < |a| && a[i] & a[i] != 0
  }

  /** The checkpoint: is any of the eight partial sums under the threshold? */
  predicate AnyUnder(threshold: int, lo: seq<int>, hi: seq<int>)
    requires |lo| == |hi| == 4
  {
    var y12 := [threshold, threshold, threshold, threshold];
    TestNonZero(Or(CmpGtQ(y12, lo), CmpGtQ(y12, hi)))
  }

  lemma MaskOr(a: bool, b: bool)
    ensures var m := (if a then ONES else 0) | (if b then ONES else 0); m & m != 0 <==> a || b
  {
    assert ONES | ONES == ONES && ONES | 0 == ONES && 0 as bv64 | ONES == ONES && ONES & ONES != 0;
  }

  lemma AnyUnderIff(threshold: int, lo: seq<int>, hi: seq<int>)
    requires |lo| == |hi| == 4
    ensures AnyUnder(threshold, lo, hi) <==> exists i :: 0 <= i < 4 && (threshold > lo[i] || threshold > hi[i])
  {
    var y12 := [threshold, threshold, threshold, threshold];
    var mask := Or(CmpGtQ(y12, lo), CmpGtQ(y12, hi));
    forall i | 0 <= i < 4 ensures mask[i] & mask[i] != 0 <==> threshold > lo[i] || threshold > hi[i] {
      MaskOr(threshold > lo[i], threshold > hi[i]);
    }
  }

  /** One pair of a block: broadcast, load, subtract, multiply-add. */
  function PairSquares(codes: seq<int>, block: nat, q: seq<int>, p: nat): (r: seq<int>)
    requires HoldsBlock(codes, block) && |q| == PADDED && p < PAIRS
    ensures |r| == LANES
  {
    var at := block * BLOCK_CODES + p * 16;
    MaddWD(SubW(BroadcastPair(q, p), codes[at..at + 16]))
  }

  /** A 16-bit subtract and a 32-bit multiply-add give the portable kernel's term exactly. */
  lemma NarrowTerm(q0: int, q1: int, a: int, b: int)
    requires -QUANT_MAX <= q0 <= QUANT_MAX && -QUANT_MAX <= q1 <= QUANT_MAX
    requires -QUANT_MAX <= a <= QUANT_MAX && -QUANT_MAX <= b <= QUANT_MAX
    ensures Wrap32(Square(Wrap16(q0 - a)) + Square(Wrap16(q1 - b))) == PairTerm(q0, q1, a, b)
  {
    SquaredDiffExact(q0, a);
    SquaredDiffExact(q1, b);
  }

  lemma PairSquaresExact(codes: seq<int>, block: nat, q: seq<int>, p: nat, lane: nat)
    requires HoldsBlock(codes, block) && |q| == PADDED && p < PAIRS && Bounded(q) && Bounded(codes) && lane < LANES
    ensures var off := PairOffset(block, p, lane);
            && off + 1 < |codes|
            && PairSquares(codes, block, q, p)[lane] == PairTerm(q[2 * p], q[2 * p + 1], codes[off], codes[off + 1])
  {
    hide Bounded, PairTerm, Wrap16, Wrap32, Square, MaddWD;
    var at := block * BLOCK_CODES + p * 16;
    var off := at + 2 * lane;
    var y0, y1 := BroadcastPair(q, p), codes[at..at + 16];
    assert y0[2 * lane] == q[2 * p] && y0[2 * lane + 1] == q[2 * p + 1];
    assert y1[2 * lane] == codes[off] && y1[2 * lane + 1] == codes[off + 1];
    CodesNarrow(q, codes, 2 * p, off);
    MaddAt(SubW(y0, y1), lane);
  }

  lemma CodesNarrow(q: seq<int>, codes: seq<int>, j: nat, off: nat)
    requires Bounded(q) && Bounded(codes) && j + 1 < |q| && off + 1 < |codes|
    ensures Wrap32(Square(Wrap16(q[j] - codes[off])) + Square(Wrap16(q[j + 1] - codes[off + 1])))
         == PairTerm(q[j], q[j + 1], codes[off], codes[off + 1])
  {
    NarrowTerm(q[j], q[j + 1], codes[off], codes[off + 1]);
  }

  /** What the accumulator registers hold after `pairs` pairs. */
  ghost predicate Accumulated(codes: seq<int>, block: nat, q: seq<int>, pairs: nat,
                              y8: seq<int>, y9: seq<int>, y10: seq<int>, y11: seq<int>)
    requires HoldsBlock(codes, block) && |q| == PADDED && pairs <= PAIRS
  {
    |y8| == |y9| == |y10| == |y11| == 4 && LaneSums(codes, block, q, pairs, y8 + y9, y10 + y11)
  }

  lemma HalvesAdd(lo: seq<int>, hi: seq<int>, y3: seq<int>, lane: nat)
    requires |lo| == |hi| == 4 && |y3| == LANES && lane < LANES
    ensures (AddQ(lo, y3[..4]) + AddQ(hi, y3[4..]))[lane] == Wrap64((lo + hi)[lane] + y3[lane])
  {}

  /** An even pair goes to the accumulator Y8:Y9; Y10:Y11 stand by. */
  method EvenPair(codes: seq<int>, block: nat, q: seq<int>, p: nat,
                  y8: seq<int>, y9: seq<int>, ghost y10: seq<int>, ghost y11: seq<int>)
    returns (r8: seq<int>, r9: seq<int>)
    requires HoldsBlock(codes, block) && |q| == PADDED && p < PAIRS && Bounded(q) && Bounded(codes)
    requires Accumulated(codes, block, q, p, y8, y9, y10, y11)
    ensures Accumulated(codes, block, q, p + 1, r8, r9, y10, y11)
  {
    var y3 := PairSquares(codes, block, q, p);
    r8, r9 := AddQ(y8, y3[..4]), AddQ(y9, y3[4..]);
    forall lane | 0 <= lane < LANES
      ensures LaneSum(codes, block, q, lane, p + 1, (r8 + r9)[lane], (y10 + y11)[lane])
    {
      LaneStep(codes, block, q, lane, p, (y8 + y9)[lane], (y10 + y11)[lane]);
      PairSquaresExact(codes, block, q, p, lane);
      HalvesAdd(y8, y9, y3, lane);
    }
  }

  /** An odd pair goes to the accumulator Y10:Y11; Y8:Y9 stand by. */
  method OddPair(codes: seq<int>, block: nat, q: seq<int>, p: nat,
                 ghost y8: seq<int>, ghost y9: seq<int>, y10: seq<int>, y11: seq<int>)
    returns (r10: seq<int>, r11: seq<int>)
    requires HoldsBlock(codes, block) && |q| == PADDED && p < PAIRS && Bounded(q) && Bounded(codes)
    requires Accumulated(codes, block, q, p, y8, y9, y10, y11)
    ensures Accumulated(codes, block, q, p + 1, y8, y9, r10, r11)
  {
    var y3 := PairSquares(codes, block, q, p);
    r10, r11 := AddQ(y10, y3[..4]), AddQ(y11, y3[4..]);
    forall lane | 0 <= lane < LANES
      ensures LaneSum(codes, block, q, lane, p + 1, (y8 + y9)[lane], (r10 + r11)[lane])
    {
      LaneStep(codes, block, q, lane, p, (y8 + y9)[lane], (y10 + y11)[lane]);
      PairSquaresExact(codes, block, q, p, lane);
      HalvesAdd(y10, y11, y3, lane);
    }
  }

  lemma Merged(codes: seq<int>, block: nat, q: seq<int>, pairs: nat,
               y8: seq<int>, y9: seq<int>, y10: seq<int>, y11: seq<int>)
    requires HoldsBlock(codes, block) && |q| == PADDED && pairs <= PAIRS && Bounded(q) && Bounded(codes)
    requires Accumulated(codes, block, q, pairs, y8, y9, y10, y11)
    ensures forall lane :: 0 <= lane < LANES ==>
              (AddQ(y8, y10) + AddQ(y9, y11))[lane] == PartialDist(q, LaneVector(codes, block, lane), 2 * pairs)
  {
    hide HoldsBlock, Bounded, AddQ;
    forall lane | 0 <= lane < LANES
      ensures (AddQ(y8, y10) + AddQ(y9, y11))[lane] == PartialDist(q, LaneVector(codes, block, lane), 2 * pairs)
    {
      assert LaneSum(codes, block, q, lane, pairs, (y8 + y9)[lane], (y10 + y11)[lane]);
      SumFits(codes, block, q, pairs, lane);
      AddedHalves(y8, y9, y10, y11, lane);
    }
  }

  lemma SumFits(codes: seq<int>, block: nat, q: seq<int>, pairs: nat, lane: nat)
    requires HoldsBlock(codes, block) && |q| == PADDED && pairs <= PAIRS && Bounded(q) && Bounded(codes) && lane < LANES
    ensures 0 <= PartialDist(q, LaneVector(codes, block, lane), 2 * pairs) <= 16 * 400_000_000
  {
    LaneSlot(codes, block, lane);
    VectorAtBounded(codes, block * LANES + lane);
    PartialDistBound(q, LaneVector(codes, block, lane), 2 * pairs);
  }

  lemma AddedHalves(y8: seq<int>, y9: seq<int>, y10: seq<int>, y11: seq<int>, lane: nat)
    requires |y8| == |y9| == |y10| == |y11| == 4 && lane < LANES
    requires 0 <= (y8 + y9)[lane] + (y10 + y11)[lane] <= 16 * 400_000_000
    ensures (AddQ(y8, y10) + AddQ(y9, y11))[lane] == (y8 + y9)[lane] + (y10 + y11)[lane]
  {}

  lemma CheckpointExact(codes: seq<int>, block: nat, q: seq<int>, pairs: nat, threshold: int,
                        y8: seq<int>, y9: seq<int>, y10: seq<int>, y11: seq<int>)
    requires HoldsBlock(codes, block) && |q| == PADDED && pairs <= PAIRS && Bounded(q) && Bounded(codes)
    requires Accumulated(codes, block, q, pairs, y8, y9, y10, y11)
    ensures AnyUnder(threshold, AddQ(y8, y10), AddQ(y9, y11)) <==> !AllLanesOver(codes, block, q, threshold, pairs)
  {
    Merged(codes, block, q, pairs, y8, y9, y10, y11);
    var lo, hi := AddQ(y8, y10), AddQ(y9, y11);
    AnyUnderIff(threshold, lo, hi);
    hide AnyUnder;
    if i :| 0 <= i < 4 && (threshold > lo[i] || threshold > hi[i]) {
      assert (lo + hi)[i] == lo[i] && (lo + hi)[i + 4] == hi[i];
    } else {
      forall lane | 0 <= lane < LANES ensures (lo + hi)[lane] >= threshold {
        assert (lo + hi)[lane] == if lane < 4 then lo[lane] else hi[lane - 4];
      }
    }
  }

  method StoreMerged(ghost codes: seq<int>, ghost block: nat, ghost q: seq<int>,
                     y8: seq<int>, y9: seq<int>, y10: seq<int>, y11: seq<int>) returns (out: seq<int>)
    requires HoldsBlock(codes, block) && |q| == PADDED && Bounded(q) && Bounded(codes)
    requires Accumulated(codes, block, q, PAIRS, y8, y9, y10, y11)
    ensures out == BlockDists(codes, block, q)
  {
    Merged(codes, block, q, PAIRS, y8, y9, y10, y11);
    out := AddQ(y8, y10) + AddQ(y9, y11);
  }

  const ZERO4: seq<int> := [0, 0, 0, 0]

  method BlkDistAvx2(codes: seq<int>, block: nat, q: seq<int>) returns (out: seq<int>)
    requires HoldsBlock(codes, block) && |q| == PADDED && Bounded(q) && Bounded(codes)
    ensures out == BlockDists(codes, block, q)
  {
    var y8, y9, y10, y11 := ZERO4, ZERO4, ZERO4, ZERO4;
    y8, y9 := EvenPair(codes, block, q, 0, y8, y9, y10, y11);
    y10, y11 := OddPair(codes, block, q, 1, y8, y9, y10, y11);
    y8, y9 := EvenPair(codes, block, q, 2, y8, y9, y10, y11);
    y10, y11 := OddPair(codes, block, q, 3, y8, y9, y10, y11);
    y8, y9 := EvenPair(codes, block, q, 4, y8, y9, y10, y11);
    y10, y11 := OddPair(codes, block, q, 5, y8, y9, y10, y11);
    y8, y9 := EvenPair(codes, block, q, 6, y8, y9, y10, y11);
    y10, y11 := OddPair(codes, block, q, 7, y8, y9, y10, y11);
    out := StoreMerged(codes, block, q, y8, y9, y10, y11);
  }

  method BlkDistPruneAvx2(codes: seq<int>, block: nat, q: seq<int>, threshold: int)
    returns (out: seq<int>, pruned: bool)
    requires HoldsBlock(codes, block) && |q| == PADDED && Bounded(q) && Bounded(codes)
    ensures pruned <==> BlockPruned(codes, block, q, threshold)
    ensures out == if pruned then seq(LANES, _ => 0) else BlockDists(codes, block, q)
  {
    var y8, y9, y10, y11 := ZERO4, ZERO4, ZERO4, ZERO4;
    y8, y9 := EvenPair(codes, block, q, 0, y8, y9, y10, y11);
    y10, y11 := OddPair(codes, block, q, 1, y8, y9, y10, y11);
    y8, y9 := EvenPair(codes, block, q, 2, y8, y9, y10, y11);
    CheckpointExact(codes, block, q, 3, threshold, y8, y9, y10, y11);
    if !AnyUnder(threshold, AddQ(y8, y10), AddQ(y9, y11)) {
      return seq(LANES, _ => 0), true;
    }
    y10, y11 := OddPair(codes, block, q, 3, y8, y9, y10, y11);
    y8, y9 := EvenPair(codes, block, q, 4, y8, y9, y10, y11);
    CheckpointExact(codes, block, q, 5, threshold, y8, y9, y10, y11);
    if !AnyUnder(threshold, AddQ(y8, y10), AddQ(y9, y11)) {
      return seq(LANES, _ => 0), true;
    }
    y10, y11 := OddPair(codes, block, q, 5, y8, y9, y10, y11);
    y8, y9 := EvenPair(codes, block, q, 6, y8, y9, y10, y11);
    y10, y11 := OddPair(codes, block, q, 7, y8, y9, y10, y11);
    out := StoreMerged(codes, block, q, y8, y9, y10, y11);
    pruned := false;
  }

  /** The widened sum of the eight squared-gap pairs, in the order of the horizontal adds. */
  function HorizontalSum(y3: seq<int>): int
    requires |y3| == 8
  {
    var y6 := AddQ(y3[..4], y3[4..]);
    var x6 := AddQ(y6[..2], y6[2..]);
    Wrap64(x6[0] + x6[1])
  }

  lemma GapRegister(x: int, lo: int, hi: int)
    requires -QUANT_MAX <= lo <= hi <= QUANT_MAX && -QUANT_MAX <= x <= QUANT_MAX
    ensures var below := if Wrap16(lo - x) > 0 then Wrap16(lo - x) else 0;
            var above := if Wrap16(x - hi) > 0 then Wrap16(x - hi) else 0;
            (if below > above then below else above) == Gap(x, lo, hi) <= 20_000
    ensures 0 <= Gap(x, lo, hi)
  {
  }

  lemma HorizontalSumExact(y3: seq<int>)
    requires |y3| == 8 && forall i :: 0 <= i < 8 ==> 0 <= y3[i] <= 800_000_000
    ensures HorizontalSum(y3) == LaneTotal(y3, 8)
  {
    LaneTotal8(y3);
    var y6 := AddQ(y3[..4], y3[4..]);
    assert y6 == [y3[0] + y3[4], y3[1] + y3[5], y3[2] + y3[6], y3[3] + y3[7]];
  }

  method BboxLowerBoundAvx2(q: seq<int>, lo: seq<int>, hi: seq<int>) returns (bound: int)
    requires |q| == |lo| == |hi| == PADDED && Bounded(q) && Bounded(lo) && Bounded(hi)
    requires forall j :: 0 <= j < PADDED ==> lo[j] <= hi[j]
    ensures bound == BoxBound(q, lo, hi, PADDED)
  {
    var y5 := seq(16, _ => 0);
    var y3 := MaxSW(SubW(lo, q), y5);
    var y4 := MaxSW(SubW(q, hi), y5);
    y3 := MaxSW(y3, y4);
    GapLanes(q, lo, hi, y3);
    var squares := MaddWD(y3);
    bound := HorizontalSum(squares);
    PairGaps(q, lo, hi, y3, 8);
    HorizontalSumExact(squares);
  }

  lemma GapLanes(q: seq<int>, lo: seq<int>, hi: seq<int>, y3: seq<int>)
    requires |q| == |lo| == |hi| == |y3| == PADDED && Bounded(q) && Bounded(lo) && Bounded(hi)
    requires forall j :: 0 <= j < PADDED ==> lo[j] <= hi[j]
    requires var zero := seq(16, _ => 0);
             y3 == MaxSW(MaxSW(SubW(lo, q), zero), MaxSW(SubW(q, hi), zero))
    ensures forall j :: 0 <= j < PADDED ==> y3[j] == Gap(q[j], lo[j], hi[j]) && 0 <= y3[j] <= 20_000
  {
    forall j | 0 <= j < PADDED ensures y3[j] == Gap(q[j], lo[j], hi[j]) && 0 <= y3[j] <= 20_000 {
      GapRegister(q[j], lo[j], hi[j]);
    }
  }

  /** A pair of squared gaps stays within 32 bits. */
  lemma GapPairExact(g0: int, g1: int)
    requires 0 <= g0 <= 20_000 && 0 <= g1 <= 20_000
    ensures 0 <= Wrap32(Square(g0) + Square(g1)) == Square(g0) + Square(g1) <= 800_000_000
  {
    SquareBound(g0, 20_000);
    SquareBound(g1, 20_000);
  }

  lemma PairGap(q: seq<int>, lo: seq<int>, hi: seq<int>, y3: seq<int>, i: nat)
    requires |q| == |lo| == |hi| == |y3| == PADDED && i < 8
    requires forall j :: 0 <= j < PADDED ==> y3[j] == Gap(q[j], lo[j], hi[j]) && 0 <= y3[j] <= 20_000
    ensures 0 <= MaddWD(y3)[i] <= 800_000_000
    ensures BoxBound(q, lo, hi, 2 * i + 2) == BoxBound(q, lo, hi, 2 * i) + MaddWD(y3)[i]
  {
    hide Square, Wrap32, Gap, BoxBound, MaddWD;
    var j := 2 * i;
    GapPairExact(y3[j], y3[j + 1]);
    BoxStep(q, lo, hi, j);
    BoxStep(q, lo, hi, j + 1);
    MaddAt(y3, i);
  }

  lemma BoxStep(q: seq<int>, lo: seq<int>, hi: seq<int>, j: nat)
    requires |q| == |lo| == |hi| && j < |q|
    ensures BoxBound(q, lo, hi, j + 1) == BoxBound(q, lo, hi, j) + Square(Gap(q[j], lo[j], hi[j]))
  {
    hide Square, Gap;
  }

  lemma MaddAt(a: seq<int>, i: nat)
    requires |a| == 16 && i < 8
    ensures MaddWD(a)[i] == Wrap32(Square(a[2 * i]) + Square(a[2 * i + 1]))
  {
    hide Square, Wrap32;
  }

  /** The sum of the first `n` lanes. */
  function LaneTotal(s: seq<int>, n: nat): int
    requires n <= |s|
  {
    if n == 0 then 0 else LaneTotal(s, n - 1) + s[n - 1]
  }

  lemma LaneTotal8(s: seq<int>)
    requires |s| == 8
    ensures LaneTotal(s, 8) == s[0] + s[1] + s[2] + s[3] + s[4] + s[5] + s[6] + s[7]
  {
    assert LaneTotal(s, 1) == s[0];
    assert LaneTotal(s, 2) == LaneTotal(s, 1) + s[1];
    assert LaneTotal(s, 4) == LaneTotal(s, 2) + s[2] + s[3];
    assert LaneTotal(s, 6) == LaneTotal(s, 4) + s[4] + s[5];
  }

  /** The multiply-add of the gaps is exact, and its eight lanes add up to the box bound. */
  lemma {:induction false} PairGaps(q: seq<int>, lo: seq<int>, hi: seq<int>, y3: seq<int>, n: nat)
    requires |q| == |lo| == |hi| == |y3| == PADDED && n <= 8
    requires forall j :: 0 <= j < PADDED ==> y3[j] == Gap(q[j], lo[j], hi[j]) && 0 <= y3[j] <= 20_000
    ensures forall i :: 0 <= i < n ==> 0 <= MaddWD(y3)[i] <= 800_000_000
    ensures LaneTotal(MaddWD(y3), n) == BoxBound(q, lo, hi, 2 * n)
  {
    if n > 0 {
      PairGaps(q, lo, hi, y3, n - 1);
      PairGap(q, lo, hi, y3, n - 1);
    }
  }
}
