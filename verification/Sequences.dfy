/** Facts about sequences and their multisets that several modules share. */
module Sequences {
  function Min(a: nat, b: nat): nat { if a < b then a else b }

  lemma SameSize<T>(xs: seq<T>, ys: seq<T>)
    requires multiset(xs) == multiset(ys)
    ensures |xs| == |ys|
  {
    assert |multiset(xs)| == |xs| && |multiset(ys)| == |ys|;
  }

  lemma RemoveOne<T>(ys: seq<T>, x: T) returns (k: nat)
    requires x in multiset(ys)
    ensures k < |ys| && ys[k] == x && ys == ys[..k] + [x] + ys[k + 1..]
    ensures multiset(ys[..k] + ys[k + 1..]) == multiset(ys) - multiset{x}
  {
    k :| 0 <= k < |ys| && ys[k] == x;
    assert ys == ys[..k] + [x] + ys[k + 1..];
  }

  lemma TwiceIn<T>(s: seq<T>, i: nat, j: nat)
    requires i < j < |s| && s[i] == s[j]
    ensures multiset(s)[s[i]] >= 2
  {
    assert s == s[..i] + [s[i]] + s[i + 1..j] + [s[j]] + s[j + 1..];
  }

  lemma OnceIn<T>(t: seq<T>, a: nat)
    requires a < |t| && forall i :: 0 <= i < |t| && i != a ==> t[i] != t[a]
    ensures multiset(t)[t[a]] == 1
  {
    assert t == t[..a] + [t[a]] + t[a + 1..];
    assert t[a] !in t[..a] && t[a] !in t[a + 1..];
  }

  /** The sum of `f` over a sequence. */
  function Total<T>(xs: seq<T>, f: T -> int): int {
    if xs == [] then 0 else Total(xs[..|xs| - 1], f) + f(xs[|xs| - 1])
  }

  lemma {:induction false} TotalConcat<T>(xs: seq<T>, ys: seq<T>, f: T -> int)
    ensures Total(xs + ys, f) == Total(xs, f) + Total(ys, f)
  {
    if ys == [] {
      assert xs + ys == xs;
    } else {
      assert (xs + ys)[..|xs + ys| - 1] == xs + ys[..|ys| - 1];
      TotalConcat(xs, ys[..|ys| - 1], f);
    }
  }

  lemma TotalMiddle<T>(a: seq<T>, x: T, b: seq<T>, f: T -> int)
    ensures Total(a + [x] + b, f) == Total(a + b, f) + f(x)
  {
    TotalConcat(a, [x], f);
    TotalConcat(a + [x], b, f);
    TotalConcat(a, b, f);
    assert Total([x], f) == f(x);
  }

  lemma WithoutLast<T>(xs: seq<T>)
    requires xs != []
    ensures var rest, x := xs[..|xs| - 1], xs[|xs| - 1];
            xs == rest + [x] + [] && rest + [] == rest && multiset(rest) == multiset(xs) - multiset{x}
  {
    assert xs == xs[..|xs| - 1] + [xs[|xs| - 1]];
  }

  /** A sum does not depend on the order. */
  lemma {:induction false} TotalPermuted<T>(xs: seq<T>, ys: seq<T>, f: T -> int)
    requires multiset(xs) == multiset(ys)
    ensures Total(xs, f) == Total(ys, f)
    decreases |xs|
  {
    SameSize(xs, ys);
    if xs != [] {
      hide Total;
      var x := xs[|xs| - 1];
      var k := RemoveOne(ys, x);
      var rest, front, back := xs[..|xs| - 1], ys[..k], ys[k + 1..];
      WithoutLast(xs);
      TotalPermuted(rest, front + back, f);
      TotalMiddle(rest, x, [], f);
      TotalMiddle(front, x, back, f);
    }
  }
}
