/** Turning a vector of reals into codes, over exact reals: what the search calls a query. */
module Quantisation {
  import opened Geometry
  import opened Index

  const DIMS: nat := 14

  /** To the nearest integer, halves away from zero. */
  function Round(x: real): int {
    if x >= 0.0 then (x + 0.5).Floor else -((0.5 - x).Floor)
  }

  function Limit(x: real): real {
    if x > 10_000.0 then 10_000.0 else if x < -10_000.0 then -10_000.0 else x
  }

  function Code(v: real): int { Round(Limit(v * 10_000.0)) }

  /** A rounded value is within a half of what it stands for, and the order is kept. */
  lemma RoundIsNear(x: real, y: real)
    ensures -0.5 <= x - Round(x) as real <= 0.5
    ensures x <= y ==> Round(x) <= Round(y)
    ensures Round(-x) == -Round(x)
  {}

  lemma RoundWhole(c: int)
    ensures Round(c as real) == c
  {}

  /** Codes stay within ten thousand, keep the order of the values, and are odd in them. */
  lemma CodeKeepsOrder(v: real, w: real)
    ensures -10_000 <= Code(v) <= 10_000 && Code(-v) == -Code(v)
    ensures v <= w ==> Code(v) <= Code(w)
  {
    hide Round;
    var x, y := v * 10_000.0, w * 10_000.0;
    assert (-v) * 10_000.0 == -x && Limit(-x) == -Limit(x);
    RoundIsNear(Limit(x), Limit(y));
    RoundIsNear(-10_000.0, Limit(x));
    RoundIsNear(Limit(x), 10_000.0);
    RoundWhole(-10_000);
    RoundWhole(10_000);
  }

  /** A value between -1 and 1 is off by at most half a code, and one outside has the code of the nearer end. */
  lemma CodeIsNear(v: real)
    ensures -1.0 <= v <= 1.0 ==> -0.5 <= v * 10_000.0 - Code(v) as real <= 0.5
    ensures v >= 1.0 ==> Code(v) == 10_000
    ensures v <= -1.0 ==> Code(v) == -10_000
  {
    hide Round;
    RoundIsNear(v * 10_000.0, 0.0);
    RoundWhole(10_000);
    RoundWhole(-10_000);
  }

  /** Every code is that of some value. */
  lemma EveryCode(c: int)
    requires -10_000 <= c <= 10_000
    ensures Code(c as real / 10_000.0) == c
  {
    assert c as real / 10_000.0 * 10_000.0 == c as real;
    RoundWhole(c);
  }

  /** Fourteen codes and two zeros: a query for the search, whatever the values. */
  method Quantize(v: seq<real>) returns (out: array<int>)
    requires |v| == DIMS
    ensures fresh(out) && Query(out[..])
    ensures forall i :: 0 <= i < DIMS ==> out[i] == Code(v[i])
    ensures out[14] == 0 && out[15] == 0
  {
    hide Code;
    out := new int[PADDED](_ => 0);
    for i := 0 to DIMS
      invariant forall j :: 0 <= j < i ==> out[j] == Code(v[j])
      invariant forall j :: i <= j < PADDED ==> out[j] == 0
    {
      out[i] := Code(v[i]);
    }
    forall j | 0 <= j < PADDED ensures -QUANT_MAX <= out[j] <= QUANT_MAX {
      if j < DIMS { CodeKeepsOrder(v[j], 0.0); }
    }
  }
}
