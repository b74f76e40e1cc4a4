/** The index builder: counting, block offsets, bounding boxes and packing, each in place. */
module Builder {
  import opened Geometry
  import opened BlockLayout
  import opened Index
  import opened SeenMask

  const I16_MAX: int := 32767
  const I16_MIN: int := -32768

  /** The vectors among the first `n` that are assigned to cluster `c`, in input order. */
  function Members(assign: seq<nat>, c: nat, n: nat): seq<nat>
    requires n <= |assign|
  {
    if n == 0 then []
    else if assign[n - 1] == c then Members(assign, c, n - 1) + [n - 1]
    else Members(assign, c, n - 1)
  }

  method CountAndList(assign: seq<nat>, k: nat) returns (counts: array<nat>, lists: array<seq<nat>>)
    requires forall i :: 0 <= i < |assign| ==> assign[i] < k
    ensures fresh(counts) && fresh(lists) && counts.Length == k && lists.Length == k
    ensures forall c :: 0 <= c < k ==> lists[c] == Members(assign, c, |assign|) && counts[c] == |lists[c]|
  {
    counts := new nat[k](_ => 0);
    for i := 0 to |assign|
      invariant forall c :: 0 <= c < k ==> counts[c] == |Members(assign, c, i)|
    {
      var c := assign[i];
      counts[c] := counts[c] + 1;
    }
    lists := new seq<nat>[k](_ => []);
    for i := 0 to |assign|
      invariant forall c :: 0 <= c < k ==> lists[c] == Members(assign, c, i)
      invariant forall c :: 0 <= c < k ==> counts[c] == |Members(assign, c, |assign|)|
    {
      var c := assign[i];
      lists[c] := lists[c] + [i];
    }
  }

  method BlocksPerCluster(counts: seq<nat>) returns (per: seq<nat>, total: nat)
    ensures |per| == |counts| && total == PrefixBlocks(counts, |counts|)
    ensures forall c :: 0 <= c < |counts| ==> per[c] == CeilDiv8(counts[c])
  {
    hide CeilDiv8;
    var blocksPer := new nat[|counts|](_ => 0);
    total := 0;
    for i := 0 to |counts|
      invariant forall c :: 0 <= c < i ==> blocksPer[c] == CeilDiv8(counts[c])
      invariant total == PrefixBlocks(counts, i)
    {
      blocksPer[i] := CeilDiv8(counts[i]);
      total := total + blocksPer[i];
    }
    per := blocksPer[..];
  }

  method BlockOffsets(counts: seq<nat>) returns (offsets: array<nat>, total: nat)
    ensures fresh(offsets) && OffsetsOk(offsets[..], counts) && total == offsets[|counts|]
  {
    var per;
    per, total := BlocksPerCluster(counts);
    PrefixesAreOffsets(counts);
    offsets := RunningSums(per, Prefixes(counts));
  }

  method RunningSums(per: seq<nat>, ghost sums: seq<nat>) returns (offsets: array<nat>)
    requires |sums| == |per| + 1 && sums[0] == 0
    requires forall c :: 0 <= c < |per| ==> sums[c + 1] == sums[c] + per[c]
    ensures fresh(offsets) && offsets[..] == sums
  {
    offsets := new nat[|per| + 1](_ => 0);
    for i := 0 to |per|
      invariant forall c :: 0 <= c <= i ==> offsets[c] == sums[c]
    {
      offsets[i + 1] := offsets[i] + per[i];
    }
  }

  ghost function Prefixes(counts: seq<nat>): (r: seq<nat>)
    ensures |r| == |counts| + 1 && forall c :: 0 <= c <= |counts| ==> r[c] == PrefixBlocks(counts, c)
  {
    seq(|counts| + 1, c requires 0 <= c <= |counts| => PrefixBlocks(counts, c))
  }

  lemma PrefixesAreOffsets(counts: seq<nat>)
    ensures OffsetsOk(Prefixes(counts), counts)
  {
    hide CeilDiv8;
    forall c | 0 <= c < |counts| ensures Prefixes(counts)[c + 1] == Prefixes(counts)[c] + CeilDiv8(counts[c]) {
      var d := c + 1;
      assert PrefixBlocks(counts, d) == PrefixBlocks(counts, c) + CeilDiv8(counts[c]);
    }
  }

  function PrefixBlocks(counts: seq<nat>, n: nat): nat
    requires n <= |counts|
  {
    if n == 0 then 0 else PrefixBlocks(counts, n - 1) + CeilDiv8(counts[n - 1])
  }

  // ---- packing ----

  /** Every code outside `slot` is as it was. */
  ghost predicate OtherSlotsSame(before: seq<int>, after: seq<int>, slot: nat) {
    |after| == |before| && forall a :: 0 <= a < |before| && SlotAt(a) != slot ==> after[a] == before[a]
  }

  lemma SameVector(before: seq<int>, after: seq<int>, slot: nat, other: nat)
    requires OtherSlotsSame(before, after, slot) && HoldsSlot(before, other) && other != slot
    ensures HoldsSlot(after, other) && VectorAt(after, other) == VectorAt(before, other)
  {
    forall j | 0 <= j < PADDED ensures VectorAt(after, other)[j] == VectorAt(before, other)[j] {
      AddressInverse(other, j);
    }
  }

  ghost predicate PairsWritten(codes: seq<int>, slot: nat, v: seq<int>, n: nat)
    requires |v| == PADDED && HoldsSlot(codes, slot) && n <= PADDED
  {
    forall j :: 0 <= j < n ==> VectorAt(codes, slot)[j] == v[j]
  }

  lemma PairPacked(before: seq<int>, after: seq<int>, slot: nat, v: seq<int>, p: nat, at: nat)
    requires |v| == PADDED && p < PAIRS && HoldsSlot(before, slot)
    requires at == Address(slot, 2 * p) && at + 1 == Address(slot, 2 * p + 1) && at + 1 < |before|
    requires after == before[at := v[2 * p]][at + 1 := v[2 * p + 1]]
    ensures OtherSlotsSame(before, after, slot)
    ensures PairsWritten(before, slot, v, 2 * p) ==> PairsWritten(after, slot, v, 2 * p + 2)
  {
    hide Address, SlotAt, DimAt;
    AddressInverse(slot, 2 * p);
    AddressInverse(slot, 2 * p + 1);
    forall j | 0 <= j < 2 * p ensures VectorAt(after, slot)[j] == VectorAt(before, slot)[j] {
      AddressInverse(slot, j);
    }
  }

  /** The address the source computes for a pair is that of its two codes. */
  lemma PairAddress(block: nat, lane: nat, p: nat, slot: nat)
    requires lane < LANES && p < PAIRS && slot == block * LANES + lane
    ensures var at := block * PADDED * LANES + p * LANES * 2 + lane * 2;
            at == Address(slot, 2 * p) && at + 1 == Address(slot, 2 * p + 1) && at + 1 < (block + 1) * BLOCK_CODES
  {
    assert slot / LANES == block && slot % LANES == lane;
  }

  lemma StillBounded(before: seq<int>, at: nat, x: int, y: int)
    requires Bounded(before) && at + 1 < |before| && -QUANT_MAX <= x <= QUANT_MAX && -QUANT_MAX <= y <= QUANT_MAX
    ensures Bounded(before[at := x][at + 1 := y])
  {}

  lemma CodesBounded(v: seq<int>, j: nat)
    requires Bounded(v) && j + 1 < |v|
    ensures -QUANT_MAX <= v[j] <= QUANT_MAX && -QUANT_MAX <= v[j + 1] <= QUANT_MAX
  {}

  /** Writes the sixteen codes of a vector into its lane, pair by pair. */
  method PackVector(codes: array<int>, block: nat, lane: nat, v: seq<int>, ghost slot: nat)
    requires |v| == PADDED && lane < LANES && slot == block * LANES + lane
    requires (block + 1) * BLOCK_CODES <= codes.Length && HoldsSlot(codes[..], slot)
    requires Bounded(codes[..]) && Bounded(v)
    modifies codes
    ensures OtherSlotsSame(old(codes[..]), codes[..], slot)
    ensures HoldsSlot(codes[..], slot) && VectorAt(codes[..], slot) == v
    ensures Bounded(codes[..])
  {
    hide Address, SlotAt, Bounded;
    ghost var was := codes[..];
    for p := 0 to PAIRS
      invariant OtherSlotsSame(was, codes[..], slot) && HoldsSlot(codes[..], slot)
      invariant PairsWritten(codes[..], slot, v, 2 * p)
      invariant Bounded(codes[..])
    {
      PairAddress(block, lane, p, slot);
      var at := block * PADDED * LANES + p * LANES * 2 + lane * 2;
      ghost var before := codes[..];
      CodesBounded(v, 2 * p);
      StillBounded(before, at, v[p * 2], v[p * 2 + 1]);
      codes[at] := v[p * 2];
      codes[at + 1] := v[p * 2 + 1];
      ghost var after := codes[..];
      assert after == before[at := v[2 * p]][at + 1 := v[2 * p + 1]];
      PairPacked(before, after, slot, v, p, at);
      hide PairsWritten, VectorAt, Address, SlotAt;
    }
  }

  // ---- boxes ----

  ghost predicate Indices(arr: seq<nat>, n: nat) {
    forall j :: 0 <= j < |arr| ==> arr[j] < n
  }

  ghost predicate Vectors(vecs: seq<seq<int>>) {
    forall i :: 0 <= i < |vecs| ==> |vecs[i]| == PADDED && Bounded(vecs[i])
  }

  function GrowLow(lo: seq<int>, v: seq<int>): (r: seq<int>)
    requires |lo| == |v| == PADDED
    ensures |r| == PADDED
  {
    seq(PADDED, j requires 0 <= j < PADDED => if v[j] < lo[j] then v[j] else lo[j])
  }

  function GrowHigh(hi: seq<int>, v: seq<int>): (r: seq<int>)
    requires |hi| == |v| == PADDED
    ensures |r| == PADDED
  {
    seq(PADDED, j requires 0 <= j < PADDED => if v[j] > hi[j] then v[j] else hi[j])
  }

  /** The corners of the box after the first `n` vectors of a cluster. */
  ghost function LowOf(vecs: seq<seq<int>>, arr: seq<nat>, n: nat): (r: seq<int>)
    requires n <= |arr| && Indices(arr, |vecs|) && Vectors(vecs)
    ensures |r| == PADDED
  {
    if n == 0 then seq(PADDED, _ => I16_MAX) else GrowLow(LowOf(vecs, arr, n - 1), vecs[arr[n - 1]])
  }

  ghost function HighOf(vecs: seq<seq<int>>, arr: seq<nat>, n: nat): (r: seq<int>)
    requires n <= |arr| && Indices(arr, |vecs|) && Vectors(vecs)
    ensures |r| == PADDED
  {
    if n == 0 then seq(PADDED, _ => I16_MIN) else GrowHigh(HighOf(vecs, arr, n - 1), vecs[arr[n - 1]])
  }

  /** The box encloses the cluster, and each of its sides touches a vector. */
  lemma {:induction false} BoxEncloses(vecs: seq<seq<int>>, arr: seq<nat>, n: nat, j: nat)
    requires n <= |arr| && Indices(arr, |vecs|) && Vectors(vecs) && j < PADDED
    ensures forall i :: 0 <= i < n ==> LowOf(vecs, arr, n)[j] <= vecs[arr[i]][j] <= HighOf(vecs, arr, n)[j]
    ensures n > 0 ==> exists i :: 0 <= i < n && LowOf(vecs, arr, n)[j] == vecs[arr[i]][j]
    ensures n > 0 ==> exists i :: 0 <= i < n && HighOf(vecs, arr, n)[j] == vecs[arr[i]][j]
  {
    if n > 0 {
      BoxEncloses(vecs, arr, n - 1, j);
      var v := vecs[arr[n - 1]];
      assert Bounded(v) && -QUANT_MAX <= v[j] <= QUANT_MAX;
      assert v[j] == vecs[arr[n - 1]][j];
    }
  }

  lemma BoxBounded(vecs: seq<seq<int>>, arr: seq<nat>)
    requires |arr| > 0 && Indices(arr, |vecs|) && Vectors(vecs)
    ensures Bounded(LowOf(vecs, arr, |arr|)) && Bounded(HighOf(vecs, arr, |arr|))
    ensures forall i :: 0 <= i < |arr| ==> InBox(vecs[arr[i]], LowOf(vecs, arr, |arr|), HighOf(vecs, arr, |arr|))
  {
    hide LowOf, HighOf, Vectors;
    var lo, hi := LowOf(vecs, arr, |arr|), HighOf(vecs, arr, |arr|);
    forall j | 0 <= j < PADDED
      ensures -QUANT_MAX <= lo[j] <= QUANT_MAX && -QUANT_MAX <= hi[j] <= QUANT_MAX
    {
      SideBounded(vecs, arr, j);
    }
    forall i | 0 <= i < |arr| ensures InBox(vecs[arr[i]], lo, hi) {
      MemberInBox(vecs, arr, i);
    }
  }

  lemma MemberInBox(vecs: seq<seq<int>>, arr: seq<nat>, i: nat)
    requires i < |arr| && Indices(arr, |vecs|) && Vectors(vecs)
    ensures InBox(vecs[arr[i]], LowOf(vecs, arr, |arr|), HighOf(vecs, arr, |arr|))
  {
    hide LowOf, HighOf;
    forall j | 0 <= j < PADDED
      ensures LowOf(vecs, arr, |arr|)[j] <= vecs[arr[i]][j] <= HighOf(vecs, arr, |arr|)[j]
    {
      BoxEncloses(vecs, arr, |arr|, j);
    }
  }

  lemma SideBounded(vecs: seq<seq<int>>, arr: seq<nat>, j: nat)
    requires |arr| > 0 && Indices(arr, |vecs|) && Vectors(vecs) && j < PADDED
    ensures -QUANT_MAX <= LowOf(vecs, arr, |arr|)[j] <= QUANT_MAX
    ensures -QUANT_MAX <= HighOf(vecs, arr, |arr|)[j] <= QUANT_MAX
  {
    hide LowOf, HighOf;
    BoxEncloses(vecs, arr, |arr|, j);
    var a :| 0 <= a < |arr| && LowOf(vecs, arr, |arr|)[j] == vecs[arr[a]][j];
    var b :| 0 <= b < |arr| && HighOf(vecs, arr, |arr|)[j] == vecs[arr[b]][j];
    assert Bounded(vecs[arr[a]]) && Bounded(vecs[arr[b]]);
  }

  method GrowBox(lo: seq<int>, hi: seq<int>, v: seq<int>) returns (lo': seq<int>, hi': seq<int>)
    requires |lo| == |hi| == |v| == PADDED
    ensures lo' == GrowLow(lo, v) && hi' == GrowHigh(hi, v)
  {
    lo', hi' := lo, hi;
    for j := 0 to PADDED
      invariant |lo'| == |hi'| == PADDED
      invariant forall i :: 0 <= i < PADDED ==> lo'[i] == if i < j then GrowLow(lo, v)[i] else lo[i]
      invariant forall i :: 0 <= i < PADDED ==> hi'[i] == if i < j then GrowHigh(hi, v)[i] else hi[i]
    {
      if v[j] < lo'[j] {
        lo' := lo'[j := v[j]];
      }
      if v[j] > hi'[j] {
        hi' := hi'[j := v[j]];
      }
    }
  }

  // ---- one cluster ----

  ghost predicate SlotHolds(codes: seq<int>, marks: seq<int>, slot: nat, v: seq<int>, mark: int) {
    HoldsSlot(codes, slot) && slot < |marks| && VectorAt(codes, slot) == v && marks[slot] == mark
  }

  /** Slots from `first` hold the first `n` vectors of a cluster with their labels. */
  ghost predicate Packed(codes: seq<int>, marks: seq<int>, first: nat, vecs: seq<seq<int>>, labels: seq<int>,
                         arr: seq<nat>, n: nat)
  {
    && n <= |arr| && Indices(arr, |vecs|) && |labels| == |vecs|
    && forall j :: 0 <= j < n ==> SlotHolds(codes, marks, first + j, vecs[arr[j]], labels[arr[j]])
  }

  /** Slots outside the range are as they were. */
  ghost predicate Kept(codes: seq<int>, marks: seq<int>, codes': seq<int>, marks': seq<int>, from: nat, to: nat) {
    && |codes'| == |codes| && |marks'| == |marks|
    && (forall a :: 0 <= a < |codes| && !(from <= SlotAt(a) < to) ==> codes'[a] == codes[a])
    && (forall s :: 0 <= s < |marks| && !(from <= s < to) ==> marks'[s] == marks[s])
  }

  lemma KeptPacked(codes: seq<int>, marks: seq<int>, codes': seq<int>, marks': seq<int>, from: nat, to: nat,
                   first: nat, vecs: seq<seq<int>>, labels: seq<int>, arr: seq<nat>, n: nat)
    requires Kept(codes, marks, codes', marks', from, to) && Packed(codes, marks, first, vecs, labels, arr, n)
    requires first + n <= from || to <= first
    ensures Packed(codes', marks', first, vecs, labels, arr, n)
  {
    forall j | 0 <= j < n ensures SlotHolds(codes', marks', first + j, vecs[arr[j]], labels[arr[j]]) {
      assert SlotHolds(codes, marks, first + j, vecs[arr[j]], labels[arr[j]]);
      KeptVector(codes, marks, codes', marks', from, to, first + j);
    }
  }

  lemma KeptVector(codes: seq<int>, marks: seq<int>, codes': seq<int>, marks': seq<int>, from: nat, to: nat, slot: nat)
    requires Kept(codes, marks, codes', marks', from, to) && HoldsSlot(codes, slot) && !(from <= slot < to)
    ensures HoldsSlot(codes', slot) && VectorAt(codes', slot) == VectorAt(codes, slot)
  {
    forall j | 0 <= j < PADDED ensures VectorAt(codes', slot)[j] == VectorAt(codes, slot)[j] {
      AddressInverse(slot, j);
    }
  }

  lemma SlotPacked(codes: seq<int>, marks: seq<int>, codes': seq<int>, marks': seq<int>, first: nat,
                   vecs: seq<seq<int>>, labels: seq<int>, arr: seq<nat>, n: nat)
    requires Packed(codes, marks, first, vecs, labels, arr, n) && n < |arr|
    requires first + n < |marks| && OtherSlotsSame(codes, codes', first + n)
    requires HoldsSlot(codes', first + n) && VectorAt(codes', first + n) == vecs[arr[n]]
    requires marks' == marks[first + n := labels[arr[n]]]
    ensures Kept(codes, marks, codes', marks', first + n, first + n + 1)
    ensures Packed(codes', marks', first, vecs, labels, arr, n + 1)
  {
    assert Kept(codes, marks, codes', marks', first + n, first + n + 1);
    KeptPacked(codes, marks, codes', marks', first + n, first + n + 1, first, vecs, labels, arr, n);
  }

  lemma KeptTwice(codes: seq<int>, marks: seq<int>, codes1: seq<int>, marks1: seq<int>,
                  codes2: seq<int>, marks2: seq<int>, first: nat, m: nat, n: nat)
    requires Kept(codes, marks, codes1, marks1, first, m) && Kept(codes1, marks1, codes2, marks2, m, n)
    requires first <= m <= n
    ensures Kept(codes, marks, codes2, marks2, first, n)
  {}

  /** The state of packing after `n` vectors of a cluster. */
  ghost predicate Progress(codes: seq<int>, marks: seq<int>, codes': seq<int>, marks': seq<int>, first: nat,
                           vecs: seq<seq<int>>, labels: seq<int>, arr: seq<nat>, n: nat)
  {
    && Packed(codes', marks', first, vecs, labels, arr, n)
    && Kept(codes, marks, codes', marks', first, first + n)
    && Bounded(codes')
  }

  lemma ProgressNext(codes: seq<int>, marks: seq<int>, codes1: seq<int>, marks1: seq<int>,
                     codes2: seq<int>, marks2: seq<int>, first: nat,
                     vecs: seq<seq<int>>, labels: seq<int>, arr: seq<nat>, n: nat, slot: nat)
    requires Progress(codes, marks, codes1, marks1, first, vecs, labels, arr, n) && n < |arr|
    requires slot == first + n < |marks1| && OtherSlotsSame(codes1, codes2, slot) && Bounded(codes2)
    requires HoldsSlot(codes2, slot) && VectorAt(codes2, slot) == vecs[arr[n]]
    requires marks2 == marks1[slot := labels[arr[n]]]
    ensures Progress(codes, marks, codes2, marks2, first, vecs, labels, arr, n + 1)
  {
    hide Packed, Kept, Bounded, VectorAt, OtherSlotsSame;
    SlotPacked(codes1, marks1, codes2, marks2, first, vecs, labels, arr, n);
    KeptTwice(codes, marks, codes1, marks1, codes2, marks2, first, slot, slot + 1);
  }

  lemma ProgressStart(codes: seq<int>, marks: seq<int>, first: nat,
                      vecs: seq<seq<int>>, labels: seq<int>, arr: seq<nat>)
    requires Bounded(codes) && Indices(arr, |vecs|) && |labels| == |vecs|
    ensures Progress(codes, marks, codes, marks, first, vecs, labels, arr, 0)
  {}

  /** Writes one vector and its label into a slot. */
  method PackSlot(codes: array<int>, marks: array<int>, block: nat, lane: nat, v: seq<int>, mark: int, ghost slot: nat,
                  ghost wasCodes: seq<int>, ghost wasMarks: seq<int>, ghost first: nat,
                  ghost vecs: seq<seq<int>>, ghost labels: seq<int>, ghost arr: seq<nat>, ghost n: nat)
    requires |v| == PADDED && Bounded(v) && lane < LANES && slot == block * LANES + lane == first + n
    requires (block + 1) * BLOCK_CODES <= codes.Length && slot < marks.Length && codes != marks
    requires Progress(wasCodes, wasMarks, codes[..], marks[..], first, vecs, labels, arr, n)
    requires n < |arr| && arr[n] < |vecs| == |labels| && v == vecs[arr[n]] && mark == labels[arr[n]]
    modifies codes, marks
    ensures Progress(wasCodes, wasMarks, codes[..], marks[..], first, vecs, labels, arr, n + 1)
  {
    hide Packed, Kept, Bounded, VectorAt, OtherSlotsSame;
    ghost var codes1, marks1 := codes[..], marks[..];
    assert HoldsSlot(codes1, slot);
    PackVector(codes, block, lane, v, slot);
    marks[block * LANES + lane] := mark;
    assert marks[..] == marks1[slot := mark];
    ProgressNext(wasCodes, wasMarks, codes1, marks1, codes[..], marks[..], first, vecs, labels, arr, n, slot);
  }

  lemma UnsetBox(vecs: seq<seq<int>>, arr: seq<nat>)
    requires Indices(arr, |vecs|) && Vectors(vecs)
    ensures LowOf(vecs, arr, 0) == seq(PADDED, _ => I16_MAX) && HighOf(vecs, arr, 0) == seq(PADDED, _ => I16_MIN)
    ensures forall j :: 0 <= j < 16 ==> LowOf(vecs, arr, 0)[j] == 32_767 && HighOf(vecs, arr, 0)[j] == -32_768
  {}

  lemma BoxNext(vecs: seq<seq<int>>, arr: seq<nat>, n: nat)
    requires n < |arr| && Indices(arr, |vecs|) && Vectors(vecs)
    ensures |vecs[arr[n]]| == PADDED && Bounded(vecs[arr[n]])
    ensures LowOf(vecs, arr, n + 1) == GrowLow(LowOf(vecs, arr, n), vecs[arr[n]])
    ensures HighOf(vecs, arr, n + 1) == GrowHigh(HighOf(vecs, arr, n), vecs[arr[n]])
  {}

  /** Packs the vectors of one cluster into consecutive slots and accumulates its box. */
  method PackCluster(vecs: seq<seq<int>>, labels: seq<int>, arr: seq<nat>, start: nat,
                     codes: array<int>, marks: array<int>) returns (lo: seq<int>, hi: seq<int>)
    requires Vectors(vecs) && |labels| == |vecs| && Indices(arr, |vecs|) && Bounded(codes[..]) && codes != marks
    requires (start + CeilDiv8(|arr|)) * BLOCK_CODES <= codes.Length
    requires (start + CeilDiv8(|arr|)) * LANES <= marks.Length
    modifies codes, marks
    ensures lo == LowOf(vecs, arr, |arr|) && hi == HighOf(vecs, arr, |arr|)
    ensures Progress(old(codes[..]), old(marks[..]), codes[..], marks[..], start * LANES, vecs, labels, arr, |arr|)
  {
    hide Progress, CeilDiv8, GrowLow, GrowHigh, LowOf, HighOf, Bounded;
    lo, hi := seq(PADDED, _ => I16_MAX), seq(PADDED, _ => I16_MIN);
    UnsetBox(vecs, arr);
    var block, lane := start, 0;
    ghost var first, wasCodes, wasMarks := start * LANES, codes[..], marks[..];
    ProgressStart(wasCodes, wasMarks, first, vecs, labels, arr);
    for n := 0 to |arr|
      invariant lane < LANES && block * LANES + lane == first + n
      invariant lo == LowOf(vecs, arr, n) && hi == HighOf(vecs, arr, n)
      invariant Progress(wasCodes, wasMarks, codes[..], marks[..], first, vecs, labels, arr, n)
    {
      var v := vecs[arr[n]];
      BoxNext(vecs, arr, n);
      lo, hi := GrowBox(lo, hi, v);
      RoomForSlot(start, |arr|, n, block, lane);
      PackSlot(codes, marks, block, lane, v, labels[arr[n]], first + n,
               wasCodes, wasMarks, first, vecs, labels, arr, n);
      lane := lane + 1;
      if lane == LANES {
        lane := 0;
        block := block + 1;
      }
    }
  }

  lemma RoomForSlot(start: nat, size: nat, n: nat, block: nat, lane: nat)
    requires n < size && lane < LANES && block * LANES + lane == start * LANES + n
    ensures block < start + CeilDiv8(size) && (block * LANES + lane) / LANES == block
  {}

  // ---- the whole index ----

  /** Rows of sixteen laid end to end. */
  function Flatten(rows: seq<seq<int>>): (r: seq<int>)
    requires forall c :: 0 <= c < |rows| ==> |rows[c]| == PADDED
    ensures |r| == |rows| * PADDED
  {
    seq(|rows| * PADDED, a requires 0 <= a < |rows| * PADDED => rows[a / PADDED][a % PADDED])
  }

  lemma FlattenRow(rows: seq<seq<int>>, c: nat)
    requires (forall d :: 0 <= d < |rows| ==> |rows[d]| == PADDED) && c < |rows|
    ensures Flatten(rows)[c * PADDED..(c + 1) * PADDED] == rows[c]
  {
    forall j | 0 <= j < PADDED ensures Flatten(rows)[c * PADDED + j] == rows[c][j] {
      assert (c * PADDED + j) / PADDED == c && (c * PADDED + j) % PADDED == j;
    }
  }

  /** What the builder is given: quantised vectors with labels and clusters. */
  ghost predicate Given(k: nat, vecs: seq<seq<int>>, labels: seq<int>, assign: seq<nat>) {
    && Vectors(vecs) && |labels| == |vecs| == |assign|
    && (forall i :: 0 <= i < |labels| ==> labels[i] == 0 || labels[i] == 1)
    && (forall i :: 0 <= i < |assign| ==> assign[i] < k)
  }

  /** The same with the members of each cluster in some order. */
  ghost predicate Input(k: nat, vecs: seq<seq<int>>, labels: seq<int>, assign: seq<nat>, order: seq<seq<nat>>) {
    && Given(k, vecs, labels, assign) && |order| == k
    && (forall c :: 0 <= c < k ==> multiset(order[c]) == multiset(Members(assign, c, |assign|)))
  }

  lemma {:induction false} MembersBelow(assign: seq<nat>, c: nat, n: nat)
    requires n <= |assign|
    ensures Indices(Members(assign, c, n), n)
    ensures forall i :: i in Members(assign, c, n) <==> 0 <= i < n && assign[i] == c
  {
    if n > 0 { MembersBelow(assign, c, n - 1); }
  }

  lemma OrderOk(k: nat, vecs: seq<seq<int>>, labels: seq<int>, assign: seq<nat>, order: seq<seq<nat>>, c: nat)
    requires Input(k, vecs, labels, assign, order) && c < k
    ensures Indices(order[c], |vecs|) && |order[c]| == |Members(assign, c, |assign|)|
  {
    var ms := Members(assign, c, |assign|);
    assert multiset(order[c]) == multiset(ms);
    MembersBelow(assign, c, |assign|);
    assert |multiset(order[c])| == |order[c]| && |multiset(ms)| == |ms|;
    forall j | 0 <= j < |order[c]| ensures order[c][j] < |vecs| {
      assert order[c][j] in multiset(order[c]);
      assert order[c][j] in ms;
    }
  }

  /** The clusters below `c` are in place: their slots and their boxes. */
  ghost predicate Placed(codes: seq<int>, marks: seq<int>, lows: seq<seq<int>>, highs: seq<seq<int>>,
                         vecs: seq<seq<int>>, labels: seq<int>, order: seq<seq<nat>>, offsets: seq<nat>, c: nat)
  {
    && c <= |order| && |lows| == |highs| == |order| && |order| < |offsets| && |labels| == |vecs| && Vectors(vecs)
    && forall d :: 0 <= d < c ==>
         && Indices(order[d], |vecs|)
         && Packed(codes, marks, offsets[d] * LANES, vecs, labels, order[d], |order[d]|)
         && lows[d] == LowOf(vecs, order[d], |order[d]|)
         && highs[d] == HighOf(vecs, order[d], |order[d]|)
  }

  ghost predicate Zeroes01(s: seq<int>) {
    forall i :: 0 <= i < |s| ==> s[i] == 0 || s[i] == 1
  }

  lemma MarksStay01(codes: seq<int>, marks: seq<int>, codes': seq<int>, marks': seq<int>, first: nat,
                    vecs: seq<seq<int>>, labels: seq<int>, arr: seq<nat>)
    requires Kept(codes, marks, codes', marks', first, first + |arr|) && Zeroes01(marks) && Zeroes01(labels)
    requires Packed(codes', marks', first, vecs, labels, arr, |arr|)
    ensures Zeroes01(marks')
  {
    forall s | 0 <= s < |marks'| ensures marks'[s] == 0 || marks'[s] == 1 {
      if first <= s < first + |arr| {
        var j := s - first;
        assert SlotHolds(codes', marks', first + j, vecs[arr[j]], labels[arr[j]]);
      }
    }
  }

  lemma PlacedNext(codes: seq<int>, marks: seq<int>, codes': seq<int>, marks': seq<int>,
                   lows: seq<seq<int>>, highs: seq<seq<int>>, lows': seq<seq<int>>, highs': seq<seq<int>>,
                   vecs: seq<seq<int>>, labels: seq<int>, order: seq<seq<nat>>,
                   counts: seq<nat>, offsets: seq<nat>, c: nat)
    requires Placed(codes, marks, lows, highs, vecs, labels, order, offsets, c) && c < |order|
    requires OffsetsOk(offsets, counts) && |counts| == |order|
    requires forall d :: 0 <= d < |order| ==> counts[d] == |order[d]|
    requires Indices(order[c], |vecs|)
    requires Packed(codes', marks', offsets[c] * LANES, vecs, labels, order[c], |order[c]|)
    requires Kept(codes, marks, codes', marks', offsets[c] * LANES, offsets[c] * LANES + |order[c]|)
    requires lows' == lows[c := LowOf(vecs, order[c], |order[c]|)]
    requires highs' == highs[c := HighOf(vecs, order[c], |order[c]|)]
    ensures Placed(codes', marks', lows', highs', vecs, labels, order, offsets, c + 1)
  {
    forall d | 0 <= d < c
      ensures Packed(codes', marks', offsets[d] * LANES, vecs, labels, order[d], |order[d]|)
    {
      OffsetsMonotone(offsets, counts, d + 1, c);
      EnoughBlocks(counts[d]);
      KeptPacked(codes, marks, codes', marks', offsets[c] * LANES, offsets[c] * LANES + |order[c]|,
                 offsets[d] * LANES, vecs, labels, order[d], |order[d]|);
    }
  }

  lemma EnoughBlocks(n: nat)
    ensures n <= CeilDiv8(n) * LANES
  {}

  lemma NonePlaced(codes: seq<int>, marks: seq<int>, lows: seq<seq<int>>, highs: seq<seq<int>>,
                   vecs: seq<seq<int>>, labels: seq<int>, order: seq<seq<nat>>, offsets: seq<nat>)
    requires |lows| == |highs| == |order| < |offsets| && |labels| == |vecs| && Vectors(vecs)
    requires (forall i :: 0 <= i < |codes| ==> codes[i] == 0) && (forall i :: 0 <= i < |marks| ==> marks[i] == 0)
    ensures Placed(codes, marks, lows, highs, vecs, labels, order, offsets, 0) && Bounded(codes) && Zeroes01(marks)
  {}

  method PackAll(vecs: seq<seq<int>>, labels: seq<int>, order: seq<seq<nat>>, counts: seq<nat>, offsets: seq<nat>)
    returns (codes: array<int>, marks: array<int>, lows: array<seq<int>>, highs: array<seq<int>>)
    requires Vectors(vecs) && |labels| == |vecs| && Zeroes01(labels)
    requires OffsetsOk(offsets, counts) && |counts| == |order|
    requires forall d :: 0 <= d < |order| ==> counts[d] == |order[d]| && Indices(order[d], |vecs|)
    ensures codes.Length == offsets[|order|] * BLOCK_CODES && marks.Length == offsets[|order|] * LANES
    ensures Placed(codes[..], marks[..], lows[..], highs[..], vecs, labels, order, offsets, |order|)
    ensures Bounded(codes[..]) && Zeroes01(marks[..])
  {
    hide Placed, Packed, Kept, Bounded, Zeroes01, LowOf, HighOf, Indices, Vectors;
    var k := |order|;
    codes := new int[offsets[k] * BLOCK_CODES](_ => 0);
    marks := new int[offsets[k] * LANES](_ => 0);
    lows := new seq<int>[k](_ => []);
    highs := new seq<int>[k](_ => []);
    NonePlaced(codes[..], marks[..], lows[..], highs[..], vecs, labels, order, offsets);
    for c := 0 to k
      invariant fresh(codes) && fresh(marks) && fresh(lows) && fresh(highs)
      invariant Placed(codes[..], marks[..], lows[..], highs[..], vecs, labels, order, offsets, c)
      invariant Bounded(codes[..]) && Zeroes01(marks[..])
    {
      OffsetsMonotone(offsets, counts, c + 1, k);
      ghost var codes0, marks0, lows0, highs0 := codes[..], marks[..], lows[..], highs[..];
      var lo, hi := PackCluster(vecs, labels, order[c], offsets[c], codes, marks);
      lows[c], highs[c] := lo, hi;
      hide OffsetsOk;
      MarksStay01(codes0, marks0, codes[..], marks[..], offsets[c] * LANES, vecs, labels, order[c]);
      PlacedNext(codes0, marks0, codes[..], marks[..], lows0, highs0, lows[..], highs[..],
                 vecs, labels, order, counts, offsets, c);
    }
  }

  /** Centroid `ci` goes to lane ci % 8 of block ci / 8. */
  method PackCentroids(centers: seq<seq<int>>) returns (codes: array<int>)
    requires Vectors(centers)
    ensures codes.Length == CeilDiv8(|centers|) * BLOCK_CODES && Bounded(codes[..])
    ensures forall ci :: 0 <= ci < |centers| ==> HoldsSlot(codes[..], ci) && VectorAt(codes[..], ci) == centers[ci]
  {
    codes := new int[CeilDiv8(|centers|) * BLOCK_CODES](_ => 0);
    for ci := 0 to |centers|
      invariant fresh(codes) && Bounded(codes[..])
      invariant forall d :: 0 <= d < ci ==> HoldsSlot(codes[..], d) && VectorAt(codes[..], d) == centers[d]
    {
      assert ci / LANES < CeilDiv8(|centers|);
      ghost var before := codes[..];
      PackVector(codes, ci / LANES, ci % LANES, centers[ci], ci);
      forall d | 0 <= d < ci ensures HoldsSlot(codes[..], d) && VectorAt(codes[..], d) == centers[d] {
        SameVector(before, codes[..], ci, d);
      }
    }
  }

  /** The index holds each cluster's vectors and labels in the given order, and the given centroids. */
  ghost predicate Stores(ix: Index, centers: seq<seq<int>>, vecs: seq<seq<int>>, labels: seq<int>, order: seq<seq<nat>>)
    requires Shape(ix)
  {
    && ix.k == |order| == |centers| && |labels| == |vecs|
    && (forall c :: 0 <= c < ix.k ==> HoldsSlot(ix.centroids, c) && VectorAt(ix.centroids, c) == centers[c])
    && (forall c :: 0 <= c < ix.k ==> ix.counts[c] == |order[c]| && Indices(order[c], |vecs|))
    && forall c, j :: 0 <= c < ix.k && 0 <= j < ix.counts[c] ==> StoresAt(ix, vecs, labels, order, c, j)
  }

  ghost predicate StoresAt(ix: Index, vecs: seq<seq<int>>, labels: seq<int>, order: seq<seq<nat>>, c: nat, j: nat)
    requires Shape(ix) && c < ix.k && j < ix.counts[c]
  {
    SlotInRange(ix, c, j);
    && c < |order| && j < |order[c]| && order[c][j] < |vecs| == |labels|
    && StoredVector(ix, c, j) == vecs[order[c][j]]
    && ix.labels[Slot(ix, c, j)] == labels[order[c][j]]
  }

  lemma PlacedStores(ix: Index, lows: seq<seq<int>>, highs: seq<seq<int>>,
                     vecs: seq<seq<int>>, labels: seq<int>, order: seq<seq<nat>>, c: nat, j: nat)
    requires Shape(ix) && c < ix.k == |order| && j < ix.counts[c] == |order[c]|
    requires Placed(ix.vectors, ix.labels, lows, highs, vecs, labels, order, ix.offsets, |order|)
    ensures StoresAt(ix, vecs, labels, order, c, j)
  {
    SlotInRange(ix, c, j);
    hide OffsetsOk, LowOf, HighOf;
    assert Packed(ix.vectors, ix.labels, ix.offsets[c] * LANES, vecs, labels, order[c], |order[c]|);
    assert SlotHolds(ix.vectors, ix.labels, ix.offsets[c] * LANES + j, vecs[order[c][j]], labels[order[c][j]]);
  }

  lemma PlacedBoxOk(ix: Index, lows: seq<seq<int>>, highs: seq<seq<int>>,
                    vecs: seq<seq<int>>, labels: seq<int>, order: seq<seq<nat>>, c: nat)
    requires Shape(ix) && c < ix.k == |order| && 0 < ix.counts[c] == |order[c]|
    requires Placed(ix.vectors, ix.labels, lows, highs, vecs, labels, order, ix.offsets, |order|)
    requires BoxLow(ix, c) == lows[c] && BoxHigh(ix, c) == highs[c]
    ensures BoxOk(ix, c)
  {
    hide OffsetsOk, LowOf, HighOf, Packed;
    assert Indices(order[c], |vecs|);
    BoxBounded(vecs, order[c]);
    forall j | 0 <= j < ix.counts[c] ensures InBox(StoredVector(ix, c, j), BoxLow(ix, c), BoxHigh(ix, c)) {
      PlacedStores(ix, lows, highs, vecs, labels, order, c, j);
    }
  }

  lemma PlacedIsWellFormed(ix: Index, lows: seq<seq<int>>, highs: seq<seq<int>>, centers: seq<seq<int>>,
                           vecs: seq<seq<int>>, labels: seq<int>, order: seq<seq<nat>>)
    requires Shape(ix) && ix.k == |order| == |centers| == |lows| == |highs|
    requires forall c :: 0 <= c < ix.k ==> ix.counts[c] == |order[c]| && |lows[c]| == PADDED && |highs[c]| == PADDED
    requires Placed(ix.vectors, ix.labels, lows, highs, vecs, labels, order, ix.offsets, |order|)
    requires ix.boxMin == Flatten(lows) && ix.boxMax == Flatten(highs)
    requires Bounded(ix.centroids) && Bounded(ix.vectors) && Zeroes01(ix.labels)
    requires forall c :: 0 <= c < ix.k ==> HoldsSlot(ix.centroids, c) && VectorAt(ix.centroids, c) == centers[c]
    ensures WF(ix) && Stores(ix, centers, vecs, labels, order)
  {
    hide OffsetsOk, LowOf, HighOf, Packed, Flatten, Bounded, BoxOk, StoresAt;
    forall c | 0 <= c < ix.k && ix.counts[c] > 0 ensures BoxOk(ix, c) {
      FlattenRow(lows, c);
      FlattenRow(highs, c);
      PlacedBoxOk(ix, lows, highs, vecs, labels, order, c);
    }
    forall c, j | 0 <= c < ix.k && 0 <= j < ix.counts[c] ensures StoresAt(ix, vecs, labels, order, c, j) {
      PlacedStores(ix, lows, highs, vecs, labels, order, c, j);
    }
  }

  lemma {:induction false} CornersFit(vecs: seq<seq<int>>, arr: seq<nat>, n: nat, j: nat)
    requires n <= |arr| && Indices(arr, |vecs|) && Vectors(vecs) && j < PADDED
    ensures I16_MIN <= LowOf(vecs, arr, n)[j] <= I16_MAX && I16_MIN <= HighOf(vecs, arr, n)[j] <= I16_MAX
  {
    if n > 0 {
      CornersFit(vecs, arr, n - 1, j);
      assert Bounded(vecs[arr[n - 1]]);
    }
  }

  /** Every side fits 16 bits, also the unset sides of an empty cluster. */
  lemma RowsFit(lows: seq<seq<int>>, highs: seq<seq<int>>, codes: seq<int>, marks: seq<int>,
                vecs: seq<seq<int>>, labels: seq<int>, order: seq<seq<nat>>, offsets: seq<nat>)
    requires Placed(codes, marks, lows, highs, vecs, labels, order, offsets, |order|)
    requires forall c :: 0 <= c < |order| ==> |lows[c]| == PADDED && |highs[c]| == PADDED
    ensures forall a :: 0 <= a < |order| * PADDED ==>
              I16_MIN <= Flatten(lows)[a] <= I16_MAX && I16_MIN <= Flatten(highs)[a] <= I16_MAX
  {
    hide LowOf, HighOf, Packed;
    forall a | 0 <= a < |order| * PADDED
      ensures I16_MIN <= Flatten(lows)[a] <= I16_MAX && I16_MIN <= Flatten(highs)[a] <= I16_MAX
    {
      var c := a / PADDED;
      assert Indices(order[c], |vecs|);
      CornersFit(vecs, order[c], |order[c]|, a % PADDED);
    }
  }

  ghost predicate Ascending(arr: seq<nat>, key: nat -> real) {
    forall i, j :: 0 <= i < j < |arr| ==> key(arr[i]) <= key(arr[j])
  }

  /** Puts one more member where its key belongs, after those that are not larger. */
  method InsertByKey(arr: seq<nat>, x: nat, key: nat -> real) returns (r: seq<nat>)
    requires Ascending(arr, key)
    ensures Ascending(r, key) && multiset(r) == multiset(arr) + multiset{x}
  {
    hide Ascending;
    var p := |arr|;
    while p > 0 && key(x) < key(arr[p - 1])
      invariant 0 <= p <= |arr|
      invariant forall i :: p <= i < |arr| ==> key(x) < key(arr[i])
    {
      p := p - 1;
    }
    r := arr[..p] + [x] + arr[p..];
    InsertedOne(arr, x, p);
    InsertedAscends(arr, x, p, key);
  }

  lemma InsertedOne(arr: seq<nat>, x: nat, p: nat)
    requires p <= |arr|
    ensures multiset(arr[..p] + [x] + arr[p..]) == multiset(arr) + multiset{x}
  {
    assert arr == arr[..p] + arr[p..];
  }

  lemma InsertedAscends(arr: seq<nat>, x: nat, p: nat, key: nat -> real)
    requires Ascending(arr, key) && p <= |arr| && (p > 0 ==> key(arr[p - 1]) <= key(x))
    requires forall i :: p <= i < |arr| ==> key(x) < key(arr[i])
    ensures Ascending(arr[..p] + [x] + arr[p..], key)
  {
    var r := arr[..p] + [x] + arr[p..];
    assert forall i :: 0 <= i < p ==> key(arr[i]) <= key(x);
    forall i, j | 0 <= i < j < |r| ensures key(r[i]) <= key(r[j]) {
      assert r[i] == if i < p then arr[i] else if i == p then x else arr[i - 1];
      assert r[j] == if j < p then arr[j] else if j == p then x else arr[j - 1];
    }
  }

  method SortByKey(arr: seq<nat>, key: nat -> real) returns (r: seq<nat>)
    ensures Ascending(r, key) && multiset(r) == multiset(arr)
  {
    r := [];
    for n := 0 to |arr|
      invariant Ascending(r, key) && multiset(r) == multiset(arr[..n])
    {
      r := InsertByKey(r, arr[n], key);
      assert arr[..n + 1] == arr[..n] + [arr[n]];
    }
    assert arr[..|arr|] == arr;
  }

  /** Sorts the members of each cluster in place by their distance to its center, which `distance` gives. */
  method SortLists(lists: array<seq<nat>>, distance: (nat, nat) -> real)
    modifies lists
    ensures forall c :: 0 <= c < lists.Length ==>
              Ascending(lists[c], (i: nat) => distance(c, i)) && multiset(lists[c]) == multiset(old(lists[c]))
  {
    for c := 0 to lists.Length
      invariant forall d :: 0 <= d < c ==>
                  Ascending(lists[d], (i: nat) => distance(d, i)) && multiset(lists[d]) == multiset(old(lists[d]))
      invariant forall d :: c <= d < lists.Length ==> lists[d] == old(lists[d])
    {
      lists[c] := SortByKey(lists[c], (i: nat) => distance(c, i));
    }
  }

  /** Every cluster's members are listed nearest to its center first. */
  ghost predicate NearestFirst(order: seq<seq<nat>>, distance: (nat, nat) -> real) {
    forall c :: 0 <= c < |order| ==> Ascending(order[c], (i: nat) => distance(c, i))
  }

  /** The builder: every vector lands in one slot of its cluster, and the index is well formed. */
  method Build(k: nat, centers: seq<seq<int>>, vecs: seq<seq<int>>, labels: seq<int>,
               assign: seq<nat>, distance: (nat, nat) -> real) returns (ix: Index, order: seq<seq<nat>>)
    requires k <= MAX_K && Given(k, vecs, labels, assign) && |centers| == k && Vectors(centers)
    ensures Input(k, vecs, labels, assign, order) && NearestFirst(order, distance)
    ensures WF(ix) && ix.k == k && ix.n == |vecs| && ix.nBlocks == ix.offsets[k]
    ensures Stores(ix, centers, vecs, labels, order)
    ensures forall a :: 0 <= a < k * PADDED ==>
              I16_MIN <= ix.boxMin[a] <= I16_MAX && I16_MIN <= ix.boxMax[a] <= I16_MAX
  {
    hide OffsetsOk, Ascending, Members, Bounded, Packed, LowOf, HighOf, Vectors, Flatten, Stores, WF;
    var counts, lists := CountAndList(assign, k);
    var offsets, total := BlockOffsets(counts[..]);
    SortLists(lists, distance);
    order := lists[..];
    forall c | 0 <= c < k ensures Indices(order[c], |vecs|) && |order[c]| == |Members(assign, c, |assign|)| {
      OrderOk(k, vecs, labels, assign, order, c);
    }
    var codes, marks, lows, highs := PackAll(vecs, labels, order, counts[..], offsets[..]);
    var centroids := PackCentroids(centers);
    ghost var ls, hs := lows[..], highs[..];
    assert forall c :: 0 <= c < k ==> |ls[c]| == PADDED && |hs[c]| == PADDED;
    ix := Index(k, |vecs|, total, centroids[..], Flatten(lows[..]), Flatten(highs[..]),
                offsets[..], counts[..], codes[..], marks[..]);
    PlacedIsWellFormed(ix, ls, hs, centers, vecs, labels, order);
    hide Placed;
    RowsFit(ls, hs, codes[..], marks[..], vecs, labels, order, offsets[..]);
  }
}
