/** The pair-packed block layout: 8 lanes of 16 codes, two codes of one lane side by side. */
module BlockLayout {
  import opened Geometry

  const LANES: nat := 8
  const PAIRS: nat := 8
  const BLOCK_CODES: nat := 128

  /** Where dimension `j` of the vector in `slot` (block * 8 + lane) is stored. */
  function Address(slot: nat, j: nat): nat {
    slot / LANES * BLOCK_CODES + j / 2 * (2 * LANES) + slot % LANES * 2 + j % 2
  }

  function SlotAt(a: nat): nat { a / BLOCK_CODES * LANES + a % 16 / 2 }

  function DimAt(a: nat): nat { a % BLOCK_CODES / 16 * 2 + a % 2 }

  lemma Split128(k: nat, r: nat)
    requires r < 128
    ensures (k * 128 + r) / 128 == k && (k * 128 + r) % 128 == r
  {}

  lemma Split16(k: nat, r: nat)
    requires r < 16
    ensures (k * 16 + r) / 16 == k && (k * 16 + r) % 16 == r
  {}

  lemma Split2(k: nat, r: nat)
    requires r < 2
    ensures (k * 2 + r) / 2 == k && (k * 2 + r) % 2 == r
  {}

  lemma Digits(block: nat, pair: nat, lane: nat, side: nat)
    requires pair < PAIRS && lane < LANES && side < 2
    ensures var a := block * BLOCK_CODES + (pair * 16 + (lane * 2 + side));
            a / BLOCK_CODES == block && a % BLOCK_CODES / 16 == pair && a % 16 / 2 == lane && a % 2 == side
  {
    var a := block * BLOCK_CODES + (pair * 16 + (lane * 2 + side));
    Split128(block, pair * 16 + (lane * 2 + side));
    Split16(pair, lane * 2 + side);
    assert a == (block * 8 + pair) * 16 + (lane * 2 + side);
    Split16(block * 8 + pair, lane * 2 + side);
    Split2(lane, side);
    assert a == (block * 64 + pair * 8 + lane) * 2 + side;
    Split2(block * 64 + pair * 8 + lane, side);
  }

  /** Slots and dimensions are in bijection with addresses: no two codes share one. */
  lemma AddressInverse(slot: nat, j: nat)
    requires j < PADDED
    ensures SlotAt(Address(slot, j)) == slot && DimAt(Address(slot, j)) == j
    ensures slot / LANES * BLOCK_CODES <= Address(slot, j) < (slot / LANES + 1) * BLOCK_CODES
  {
    var block, lane, pair, side := slot / LANES, slot % LANES, j / 2, j % 2;
    Digits(block, pair, lane, side);
    assert Address(slot, j) == block * BLOCK_CODES + (pair * 16 + (lane * 2 + side));
  }

  lemma AddressOnto(a: nat)
    ensures DimAt(a) < PADDED && Address(SlotAt(a), DimAt(a)) == a
  {
    var block, pair, lane, side := a / BLOCK_CODES, a % BLOCK_CODES / 16, a % 16 / 2, a % 2;
    RemainderIn16(a);
    Split8(block, lane);
    Split2(pair, side);
  }

  lemma Split8(k: nat, r: nat)
    requires r < 8
    ensures (k * 8 + r) / 8 == k && (k * 8 + r) % 8 == r
  {}

  lemma RemainderIn16(a: nat)
    ensures a == a / 128 * 128 + (a % 128 / 16 * 16 + (a % 16 / 2 * 2 + a % 2))
    ensures a % 128 / 16 < 8 && a % 16 / 2 < 8
  {
    var q, r := a / 16, a % 16;
    assert a == q / 8 * 128 + (q % 8 * 16 + r);
    Split128(q / 8, q % 8 * 16 + r);
    Split16(q % 8, r);
    assert a == (q * 8 + r / 2) * 2 + r % 2;
    Split2(q * 8 + r / 2, r % 2);
  }

  ghost predicate HoldsSlot(codes: seq<int>, slot: nat) {
    (slot / LANES + 1) * BLOCK_CODES <= |codes|
  }

  lemma AddressInRange(codes: seq<int>, slot: nat, j: nat)
    requires j < PADDED && HoldsSlot(codes, slot)
    ensures Address(slot, j) < |codes|
  {
    AddressInverse(slot, j);
  }

  /** The vector stored in `slot`. */
  ghost function VectorAt(codes: seq<int>, slot: nat): (v: seq<int>)
    requires HoldsSlot(codes, slot)
    ensures |v| == PADDED
    ensures forall j :: 0 <= j < PADDED ==> Address(slot, j) < |codes| && v[j] == codes[Address(slot, j)]
  {
    assert forall j :: 0 <= j < PADDED ==> Address(slot, j) < |codes| by {
      forall j | 0 <= j < PADDED ensures Address(slot, j) < |codes| { AddressInRange(codes, slot, j); }
    }
    seq(PADDED, j requires 0 <= j < PADDED => codes[Address(slot, j)])
  }

  lemma VectorAtBounded(codes: seq<int>, slot: nat)
    requires HoldsSlot(codes, slot) && Bounded(codes)
    ensures Bounded(VectorAt(codes, slot))
  {
    var v := VectorAt(codes, slot);
    forall j | 0 <= j < |v| ensures -QUANT_MAX <= v[j] <= QUANT_MAX {
      assert v[j] == codes[Address(slot, j)];
    }
  }
}
