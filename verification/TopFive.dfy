/** The running list of the five nearest vectors, and what it means to fold a scan into it. */
module TopFive {
  import opened Sequences
  import opened Machine

  const TOP_K: nat := 5

  /** A stored vector seen by a query. The slot identifies the vector; it is not in the arrays. */
  datatype Item = Item(dist: int, fraud: int, slot: int)

  const SENTINEL: Item := Item(I64_MAX, 0, -1)
  const EMPTY: seq<Item> := [SENTINEL, SENTINEL, SENTINEL, SENTINEL, SENTINEL]

  ghost predicate Sorted(s: seq<Item>) {
    forall i, j :: 0 <= i <= j < |s| ==> s[i].dist <= s[j].dist
  }

  /** The fifth distance: anything at or above it is turned away. */
  function Threshold(best: seq<Item>): int
    requires |best| == TOP_K
  {
    best[TOP_K - 1].dist
  }

  /** The place for `x` in s[..pos], looking down from `pos`: after everything not farther than `x`. */
  function Place(s: seq<Item>, x: Item, pos: nat): (r: nat)
    requires pos <= |s|
    ensures r <= pos
    ensures forall i :: r <= i < pos ==> x.dist < s[i].dist
    ensures r > 0 ==> s[r - 1].dist <= x.dist
  {
    if pos > 0 && x.dist < s[pos - 1].dist then Place(s, x, pos - 1) else pos
  }

  function Insert(best: seq<Item>, x: Item): (r: seq<Item>)
    requires |best| == TOP_K
    ensures |r| == TOP_K
  {
    if x.dist >= Threshold(best) then best
    else
      var pos := Place(best, x, TOP_K - 1);
      best[..pos] + [x] + best[pos..TOP_K - 1]
  }

  /** Folding a sequence of items into a list. */
  function Scan(best: seq<Item>, xs: seq<Item>): (r: seq<Item>)
    requires |best| == TOP_K
    ensures |r| == TOP_K
  {
    if xs == [] then best else Insert(Scan(best, xs[..|xs| - 1]), xs[|xs| - 1])
  }

  lemma {:induction false} ScanConcat(best: seq<Item>, xs: seq<Item>, ys: seq<Item>)
    requires |best| == TOP_K
    ensures Scan(best, xs + ys) == Scan(Scan(best, xs), ys)
  {
    if ys == [] {
      assert xs + ys == xs;
    } else {
      assert (xs + ys)[..|xs + ys| - 1] == xs + ys[..|ys| - 1];
      ScanConcat(best, xs, ys[..|ys| - 1]);
    }
  }

  lemma ScanSplit(best: seq<Item>, xs: seq<Item>, from: nat, to: nat)
    requires |best| == TOP_K && from <= to <= |xs|
    ensures Scan(best, xs[..to]) == Scan(Scan(best, xs[..from]), xs[from..to])
  {
    assert xs[..to] == xs[..from] + xs[from..to];
    ScanConcat(best, xs[..from], xs[from..to]);
  }

  lemma ScanSnoc(best: seq<Item>, xs: seq<Item>, i: nat)
    requires |best| == TOP_K && i < |xs|
    ensures Scan(best, xs[..i + 1]) == Insert(Scan(best, xs[..i]), xs[i])
  {
    assert xs[..i + 1][..i] == xs[..i];
  }

  lemma InsertSorted(best: seq<Item>, x: Item)
    requires |best| == TOP_K && Sorted(best)
    ensures Sorted(Insert(best, x)) && Threshold(Insert(best, x)) <= Threshold(best)
  {}

  /** The threshold only falls. */
  lemma {:induction false} ScanSorted(best: seq<Item>, xs: seq<Item>)
    requires |best| == TOP_K && Sorted(best)
    ensures Sorted(Scan(best, xs)) && Threshold(Scan(best, xs)) <= Threshold(best)
  {
    if xs != [] {
      ScanSorted(best, xs[..|xs| - 1]);
      InsertSorted(Scan(best, xs[..|xs| - 1]), xs[|xs| - 1]);
    }
  }

  /** Items at or above the threshold change nothing: this is what makes every prune sound. */
  lemma {:induction false} ScanFar(best: seq<Item>, xs: seq<Item>)
    requires |best| == TOP_K
    requires forall i :: 0 <= i < |xs| ==> xs[i].dist >= Threshold(best)
    ensures Scan(best, xs) == best
  {
    if xs != [] { ScanFar(best, xs[..|xs| - 1]); }
  }

  // ---- the specification: the first five of the stable sort ----

  /** Stable insertion: after the last element that is not farther. */
  function StableInsert(s: seq<Item>, x: Item): (r: seq<Item>) {
    s[..Place(s, x, |s|)] + [x] + s[Place(s, x, |s|)..]
  }

  function StableSort(xs: seq<Item>): seq<Item> {
    if xs == [] then [] else StableInsert(StableSort(xs[..|xs| - 1]), xs[|xs| - 1])
  }

  lemma StableInsertSorted(s: seq<Item>, x: Item)
    requires Sorted(s)
    ensures Sorted(StableInsert(s, x))
  {
    hide Place;
    var p := Place(s, x, |s|);
    SpliceSorted(s, x, p);
  }

  lemma SpliceSorted(s: seq<Item>, x: Item, p: nat)
    requires Sorted(s) && p <= |s| && (p > 0 ==> s[p - 1].dist <= x.dist)
    requires forall i :: p <= i < |s| ==> x.dist < s[i].dist
    ensures Sorted(s[..p] + [x] + s[p..])
  {
    var r := s[..p] + [x] + s[p..];
    assert forall i :: 0 <= i < p ==> s[i].dist <= x.dist;
    forall i, j | 0 <= i < j < |r| ensures r[i].dist <= r[j].dist {
      SplicedAt(s, x, p, i);
      SplicedAt(s, x, p, j);
    }
  }

  lemma StableInsertMultiset(s: seq<Item>, x: Item)
    ensures multiset(StableInsert(s, x)) == multiset(s) + multiset{x}
  {
    var p := Place(s, x, |s|);
    assert s == s[..p] + s[p..];
  }

  lemma {:induction false} StableSortSorted(xs: seq<Item>)
    ensures Sorted(StableSort(xs)) && multiset(StableSort(xs)) == multiset(xs) && |StableSort(xs)| == |xs|
  {
    if xs != [] {
      var rest, x := xs[..|xs| - 1], xs[|xs| - 1];
      StableSortSorted(rest);
      StableInsertSorted(StableSort(rest), x);
      StableInsertMultiset(StableSort(rest), x);
      assert xs == rest + [x];
    }
  }

  /** The items at distance `d`, in order. */
  function AtDistance(xs: seq<Item>, d: int): seq<Item> {
    if xs == [] then []
    else AtDistance(xs[..|xs| - 1], d) + if xs[|xs| - 1].dist == d then [xs[|xs| - 1]] else []
  }

  lemma {:induction false} AtDistanceConcat(xs: seq<Item>, ys: seq<Item>, d: int)
    ensures AtDistance(xs + ys, d) == AtDistance(xs, d) + AtDistance(ys, d)
  {
    if ys == [] {
      assert xs + ys == xs;
    } else {
      assert (xs + ys)[..|xs + ys| - 1] == xs + ys[..|ys| - 1];
      AtDistanceConcat(xs, ys[..|ys| - 1], d);
    }
  }

  lemma {:induction false} NoneAtDistance(xs: seq<Item>, d: int)
    requires forall i :: 0 <= i < |xs| ==> xs[i].dist != d
    ensures AtDistance(xs, d) == []
  {
    if xs != [] { NoneAtDistance(xs[..|xs| - 1], d); }
  }

  lemma SwapAround(a: seq<Item>, b: seq<Item>, c: seq<Item>)
    requires b == [] || c == []
    ensures a + b + c == a + c + b
  {
    assert a + [] == a;
    assert a + b + [] == a + b;
    assert a + c + [] == a + c;
  }

  lemma SpliceAtDistance(lo: seq<Item>, x: Item, hi: seq<Item>, d: int)
    requires forall i :: 0 <= i < |hi| ==> x.dist < hi[i].dist
    ensures AtDistance(lo + [x] + hi, d) == AtDistance(lo + hi, d) + AtDistance([x], d)
  {
    hide AtDistance;
    AtDistanceConcat(lo, hi, d);
    AtDistanceConcat(lo + [x], hi, d);
    AtDistanceConcat(lo, [x], d);
    if x.dist == d { NoneAtDistance(hi, d); } else { NoneAtDistance([x], d); }
    SwapAround(AtDistance(lo, d), AtDistance([x], d), AtDistance(hi, d));
  }

  lemma StableInsertAtDistance(s: seq<Item>, x: Item, d: int)
    ensures AtDistance(StableInsert(s, x), d) == AtDistance(s, d) + AtDistance([x], d)
  {
    var p := Place(s, x, |s|);
    SpliceAtDistance(s[..p], x, s[p..], d);
    assert s[..p] + s[p..] == s;
  }

  /** Stability: items at equal distance keep their order, earliest first. */
  lemma {:induction false} StableSortStable(xs: seq<Item>, d: int)
    ensures AtDistance(StableSort(xs), d) == AtDistance(xs, d)
  {
    if xs != [] {
      var rest, x := xs[..|xs| - 1], xs[|xs| - 1];
      StableSortStable(rest, d);
      StableInsertAtDistance(StableSort(rest), x, d);
      assert xs == rest + [x];
      AtDistanceConcat(rest, [x], d);
    }
  }

  /** The first five, padded with sentinels. */
  function FirstFive(s: seq<Item>): (r: seq<Item>)
    ensures |r| == TOP_K
  {
    (s + EMPTY)[..TOP_K]
  }

  ghost predicate Finite(xs: seq<Item>) {
    forall i :: 0 <= i < |xs| ==> xs[i].dist < I64_MAX
  }

  /** The place of `x` is the one cut between what is not farther and what is. */
  lemma PlaceUnique(s: seq<Item>, x: Item, pos: nat, p: nat)
    requires p <= pos <= |s| && Sorted(s)
    requires forall i :: p <= i < pos ==> x.dist < s[i].dist
    requires p > 0 ==> s[p - 1].dist <= x.dist
    ensures Place(s, x, pos) == p
  {}

  lemma FirstFiveAt(s: seq<Item>, i: nat)
    requires i < TOP_K
    ensures FirstFive(s)[i] == if i < |s| then s[i] else SENTINEL
  {}

  lemma SplicedAt(s: seq<Item>, x: Item, p: nat, i: nat)
    requires p <= |s| && i <= |s|
    ensures (s[..p] + [x] + s[p..])[i] == if i < p then s[i] else if i == p then x else s[i - 1]
  {}

  /** One insertion into the five commutes with one stable insertion into the whole. */
  lemma InsertIsFirstFive(s: seq<Item>, x: Item)
    requires Sorted(s) && Finite(s) && x.dist < I64_MAX
    ensures Insert(FirstFive(s), x) == FirstFive(StableInsert(s, x))
  {
    hide Place, Finite, Sorted;
    var best := FirstFive(s);
    var p := Place(s, x, |s|);
    FirstFiveSorted(s);
    forall i | 0 <= i < TOP_K
      ensures Insert(best, x)[i] == FirstFive(StableInsert(s, x))[i]
    {
      FirstFiveAt(StableInsert(s, x), i);
      FirstFiveAt(s, TOP_K - 1);
      FirstFiveAt(s, i);
      if i > 0 { FirstFiveAt(s, i - 1); }
      if i <= |s| { SplicedAt(s, x, p, i); }
      if p >= TOP_K {
        SortedAt(s, TOP_K - 1, p - 1);
      } else {
        PlaceInFive(s, x);
        SplicedAt(best[..TOP_K - 1], x, p, i);
        assert best[..TOP_K - 1][..p] == best[..p] && best[..TOP_K - 1][p..] == best[p..TOP_K - 1];
      }
    }
  }

  lemma FirstFiveSorted(s: seq<Item>)
    requires Sorted(s) && Finite(s)
    ensures Sorted(FirstFive(s))
  {
    var b := FirstFive(s);
    forall i, j | 0 <= i <= j < |b| ensures b[i].dist <= b[j].dist {
      FirstFiveAt(s, i);
      FirstFiveAt(s, j);
    }
  }

  lemma PlaceInFive(s: seq<Item>, x: Item)
    requires Sorted(s) && Finite(s) && x.dist < I64_MAX && Place(s, x, |s|) < TOP_K
    ensures Place(FirstFive(s), x, TOP_K - 1) == Place(s, x, |s|) && x.dist < Threshold(FirstFive(s))
  {
    var best := FirstFive(s);
    var p := Place(s, x, |s|);
    FirstFiveSorted(s);
    forall i | p <= i < TOP_K ensures x.dist < best[i].dist { FirstFiveAt(s, i); }
    if p > 0 { FirstFiveAt(s, p - 1); }
    PlaceUnique(best, x, TOP_K - 1, p);
  }

  /** The fold of insertions is the head of the stable sort, whatever the sequence. */
  lemma {:induction false} ScanIsFirstFive(xs: seq<Item>)
    requires Finite(xs)
    ensures Scan(EMPTY, xs) == FirstFive(StableSort(xs))
  {
    if xs != [] {
      var rest := xs[..|xs| - 1];
      ScanIsFirstFive(rest);
      StableSortSorted(rest);
      StableSortFinite(rest);
      InsertIsFirstFive(StableSort(rest), xs[|xs| - 1]);
    }
  }

  lemma StableSortFinite(xs: seq<Item>)
    requires Finite(xs)
    ensures Finite(StableSort(xs))
  {
    StableSortSorted(xs);
    var s := StableSort(xs);
    forall i | 0 <= i < |s| ensures s[i].dist < I64_MAX {
      assert s[i] in multiset(s);
      assert s[i] in xs;
    }
  }

  // ---- permutation invariance ----

  function Below(d: int): Item -> int { (x: Item) => if x.dist < d then 1 else 0 }

  /** In a sorted sequence the items nearer than `d` are an initial segment. */
  lemma {:induction false} SortedCount(s: seq<Item>, d: int)
    requires Sorted(s)
    ensures 0 <= Total(s, Below(d)) <= |s|
    ensures forall i :: 0 <= i < |s| ==> (s[i].dist < d <==> i < Total(s, Below(d)))
  {
    if s != [] {
      var rest := s[..|s| - 1];
      SortedCount(rest, d);
      if s[|s| - 1].dist < d {
        if rest != [] { assert rest[|rest| - 1].dist <= s[|s| - 1].dist; }
      }
    }
  }

  /** Sorting fixes the distances, whatever order the items came in. */
  lemma SameDistances(s: seq<Item>, t: seq<Item>, i: nat)
    requires Sorted(s) && Sorted(t) && multiset(s) == multiset(t)
    requires i < |s| && |s| == |t|
    ensures s[i].dist == t[i].dist
  {
    TotalPermuted(s, t, Below(t[i].dist));
    SortedCount(s, t[i].dist);
    SortedCount(t, t[i].dist);
    TotalPermuted(s, t, Below(s[i].dist));
    SortedCount(s, s[i].dist);
    SortedCount(t, s[i].dist);
  }

  /** The five distances a scan ends with depend only on which items were scanned. */
  lemma ScanDistancesPermuted(xs: seq<Item>, ys: seq<Item>, i: nat)
    requires multiset(xs) == multiset(ys) && Finite(xs) && Finite(ys) && i < TOP_K
    ensures Scan(EMPTY, xs)[i].dist == Scan(EMPTY, ys)[i].dist
  {
    SameSize(xs, ys);
    ScanIsFirstFive(xs);
    ScanIsFirstFive(ys);
    StableSortSorted(xs);
    StableSortSorted(ys);
    FirstFiveAt(StableSort(xs), i);
    FirstFiveAt(StableSort(ys), i);
    if i < |xs| { SameDistances(StableSort(xs), StableSort(ys), i); }
  }

  /** Entry `i` of the five is nearer than `d` exactly when more than `i` of the scanned items are. */
  lemma ScanCount(xs: seq<Item>, d: int, i: nat)
    requires Finite(xs) && i < TOP_K && d <= I64_MAX
    ensures Scan(EMPTY, xs)[i].dist < d <==> i < Total(xs, Below(d))
  {
    var s := StableSort(xs);
    ScanIsFirstFive(xs);
    StableSortSorted(xs);
    FirstFiveAt(s, i);
    SortedCount(s, d);
    TotalPermuted(s, xs, Below(d));
  }

  lemma {:induction false} SomeBelow(xs: seq<Item>, d: int, j: nat)
    requires j < |xs| && xs[j].dist < d
    ensures Total(xs, Below(d)) > 0
  {
    NoneNegative(xs[..|xs| - 1], d);
    if j < |xs| - 1 { SomeBelow(xs[..|xs| - 1], d, j); }
  }

  lemma {:induction false} NoneNegative(xs: seq<Item>, d: int)
    ensures Total(xs, Below(d)) >= 0
  {
    if xs != [] { NoneNegative(xs[..|xs| - 1], d); }
  }

  /**
   * Scanning more leaves the five distances as they are exactly when nothing new beats the threshold.
   */
  lemma MoreIsTheSameIff(xs: seq<Item>, ys: seq<Item>)
    requires Finite(xs) && Finite(ys)
    ensures (forall i :: 0 <= i < TOP_K ==> Scan(EMPTY, xs + ys)[i].dist == Scan(EMPTY, xs)[i].dist)
       <==> (forall j :: 0 <= j < |ys| ==> ys[j].dist >= Threshold(Scan(EMPTY, xs)))
  {
    var best := Scan(EMPTY, xs);
    var d := Threshold(best);
    ScanConcat(EMPTY, xs, ys);
    if forall j :: 0 <= j < |ys| ==> ys[j].dist >= d {
      ScanFar(best, ys);
    } else {
      var j :| 0 <= j < |ys| && ys[j].dist < d;
      EmptySorted();
      ScanSorted(EMPTY, xs);
      NearerMoves(xs, ys, d, j);
    }
  }

  lemma EmptySorted()
    ensures Sorted(EMPTY)
  {}

  lemma NearerMoves(xs: seq<Item>, ys: seq<Item>, d: int, j: nat)
    requires Finite(xs) && Finite(ys) && d == Threshold(Scan(EMPTY, xs)) <= I64_MAX
    requires j < |ys| && ys[j].dist < d
    ensures exists i :: 0 <= i < TOP_K && Scan(EMPTY, xs + ys)[i].dist != Scan(EMPTY, xs)[i].dist
  {
    var i := Total(xs, Below(d));
    NoneNegative(xs, d);
    ScanCount(xs, d, TOP_K - 1);
    SomeBelow(ys, d, j);
    TotalConcat(xs, ys, Below(d));
    ScanCount(xs, d, i);
    ScanCount(xs + ys, d, i);
    assert Scan(EMPTY, xs + ys)[i].dist != Scan(EMPTY, xs)[i].dist;
  }

  // ---- what the five are, without naming any algorithm ----

  /** `best` lists min(5, |xs|) of the items `xs`, ascending, none farther than any item left over. */
  ghost predicate NearestOf(best: seq<Item>, xs: seq<Item>, rest: seq<Item>) {
    var n := Min(TOP_K, |xs|);
    && |best| == TOP_K
    && Sorted(best)
    && (forall i :: n <= i < TOP_K ==> best[i] == SENTINEL)
    && multiset(best[..n]) + multiset(rest) == multiset(xs)
    && (forall i, j :: 0 <= i < n && 0 <= j < |rest| ==> best[i].dist <= rest[j].dist)
  }

  /** The items a scan of `xs` leaves out of the five. */
  function LeftOver(xs: seq<Item>): seq<Item>
  {
    StableSort(xs)[Min(TOP_K, |StableSort(xs)|)..]
  }

  lemma FirstFiveIsNearest(s: seq<Item>)
    requires Sorted(s) && Finite(s)
    ensures NearestOf(FirstFive(s), s, s[Min(TOP_K, |s|)..])
  {
    var n := Min(TOP_K, |s|);
    var best := FirstFive(s);
    FirstFiveSorted(s);
    forall i | 0 <= i < TOP_K ensures best[i] == if i < |s| then s[i] else SENTINEL { FirstFiveAt(s, i); }
    hide FirstFive, Sorted;
    assert s == s[..n] + s[n..];
    assert best[..n] == s[..n];
    forall i, j | 0 <= i < n && 0 <= j < |s[n..]| ensures best[i].dist <= s[n..][j].dist {
      SortedAt(s, i, n + j);
    }
  }

  lemma SortedAt(s: seq<Item>, i: nat, j: nat)
    requires Sorted(s) && i <= j < |s|
    ensures s[i].dist <= s[j].dist
  {}

  lemma ScanIsNearest(xs: seq<Item>)
    requires Finite(xs)
    ensures NearestOf(Scan(EMPTY, xs), xs, LeftOver(xs))
  {
    ScanIsFirstFive(xs);
    StableSortSorted(xs);
    StableSortFinite(xs);
    FirstFiveIsNearest(StableSort(xs));
  }

  function Fraud(): Item -> int { (x: Item) => x.fraud }

  /** How many of the five are fraud. */
  function Frauds(best: seq<Item>): int { Total(best, Fraud()) }

  lemma {:induction false} FraudsRange(best: seq<Item>)
    requires forall i :: 0 <= i < |best| ==> best[i].fraud == 0 || best[i].fraud == 1
    ensures 0 <= Frauds(best) <= |best|
    ensures Frauds(best) == |best| ==> forall i :: 0 <= i < |best| ==> best[i].fraud == 1
  {
    if best != [] { FraudsRange(best[..|best| - 1]); }
  }

  /** Items nearer than `d` that are fraud. */
  function FraudBelow(d: int): Item -> int { (x: Item) => if x.dist < d then x.fraud else 0 }

  lemma {:induction false} NearFrauds(xs: seq<Item>, d: int)
    requires forall i :: 0 <= i < |xs| ==> xs[i].dist < d
    ensures Total(xs, FraudBelow(d)) == Frauds(xs)
  {
    if xs != [] { NearFrauds(xs[..|xs| - 1], d); }
  }

  lemma {:induction false} FarFrauds(xs: seq<Item>, d: int)
    requires forall i :: 0 <= i < |xs| ==> xs[i].dist >= d
    ensures Total(xs, FraudBelow(d)) == 0
  {
    if xs != [] { FarFrauds(xs[..|xs| - 1], d); }
  }

  /** When exactly five items are nearer than `d`, the fraud count of the five is a count over all items. */
  lemma FraudsOfFive(xs: seq<Item>, d: int)
    requires Finite(xs) && d <= I64_MAX && Total(xs, Below(d)) == TOP_K
    ensures Frauds(Scan(EMPTY, xs)) == Total(xs, FraudBelow(d))
  {
    hide StableSort, Scan, Sorted, Total, Finite;
    var s := StableSort(xs);
    ScanIsFirstFive(xs);
    StableSortSorted(xs);
    TotalPermuted(s, xs, Below(d));
    TotalPermuted(s, xs, FraudBelow(d));
    SortedCount(s, d);
    assert s == s[..TOP_K] + s[TOP_K..];
    assert FirstFive(s) == s[..TOP_K];
    TotalConcat(s[..TOP_K], s[TOP_K..], FraudBelow(d));
    NearFrauds(s[..TOP_K], d);
    FarFrauds(s[TOP_K..], d);
  }

  /**
   * Five that were scanned from a part of the items, at the fifth distance of all, are the five of all as soon as
   * exactly five items are nearer than `d`.
   */
  lemma FraudsOfPart(xs: seq<Item>, ys: seq<Item>, all: seq<Item>, d: int)
    requires Finite(xs) && Finite(all) && multiset(xs + ys) == multiset(all)
    requires Threshold(Scan(EMPTY, xs)) == Threshold(Scan(EMPTY, all))
    requires d <= I64_MAX && Total(all, Below(d)) == TOP_K
    ensures Frauds(Scan(EMPTY, xs)) == Total(all, FraudBelow(d))
  {
    hide Scan, Total, Finite;
    ScanCount(all, d, TOP_K - 1);
    ScanCount(xs, d, TOP_K - 1);
    TotalPermuted(xs + ys, all, Below(d));
    TotalConcat(xs, ys, Below(d));
    NoneNegative(ys, d);
    forall j | 0 <= j < |ys| ensures ys[j].dist >= d {
      if ys[j].dist < d { SomeBelow(ys, d, j); }
    }
    FraudsOfFive(xs, d);
    TotalPermuted(xs + ys, all, FraudBelow(d));
    TotalConcat(xs, ys, FraudBelow(d));
    FarFrauds(ys, d);
  }

  lemma {:induction false} AtMostAll(xs: seq<Item>, d: int)
    ensures Total(xs, Below(d)) <= |xs|
  {
    if xs != [] { AtMostAll(xs[..|xs| - 1], d); }
  }

  lemma {:induction false} NoneBelow(xs: seq<Item>, d: int)
    requires forall i :: 0 <= i < |xs| ==> xs[i].dist >= d
    ensures Total(xs, Below(d)) == 0
  {
    if xs != [] { NoneBelow(xs[..|xs| - 1], d); }
  }

  lemma FiveAndRest(best: seq<Item>, xs: seq<Item>, left: seq<Item>)
    requires NearestOf(best, xs, left) && |xs| >= TOP_K && Finite(xs)
    ensures |best| == TOP_K && multiset(best + left) == multiset(xs) && Threshold(best) < I64_MAX
  {
    assert best[..TOP_K] == best;
    var x := best[TOP_K - 1];
    assert x in multiset(best);
    assert x in multiset(xs);
    assert x in xs;
  }

  /** With no tie across the fifth place, exactly five items are nearer than one more than the fifth distance. */
  lemma NoTieCounts(xs: seq<Item>)
    requires Finite(xs) && |xs| >= TOP_K
    requires forall x :: x in LeftOver(xs) ==> Threshold(Scan(EMPTY, xs)) < x.dist
    ensures var d := Threshold(Scan(EMPTY, xs)) + 1; d <= I64_MAX && Total(xs, Below(d)) == TOP_K
  {
    hide Scan, Total, LeftOver, NearestOf, Finite;
    var best, left := Scan(EMPTY, xs), LeftOver(xs);
    ScanIsNearest(xs);
    FiveAndRest(best, xs, left);
    var d := Threshold(best) + 1;
    ScanCount(xs, d, TOP_K - 1);
    TotalPermuted(best + left, xs, Below(d));
    TotalConcat(best, left, Below(d));
    AtMostAll(best, d);
    NoneBelow(left, d);
  }

  /** With no tie across the cut, the five items themselves are determined. */
  lemma NearestUnique(b: seq<Item>, rest: seq<Item>, b': seq<Item>, rest': seq<Item>, xs: seq<Item>)
    requires NearestOf(b, xs, rest) && NearestOf(b', xs, rest')
    requires |xs| >= TOP_K
    requires forall j :: 0 <= j < |rest| ==> Threshold(b) < rest[j].dist
    requires Threshold(b') == Threshold(b)
    ensures multiset(b) == multiset(b') && Frauds(b) == Frauds(b')
  {
    assert b[..TOP_K] == b && b'[..TOP_K] == b';
    forall x ensures multiset(b')[x] <= multiset(b)[x] {
      if x in multiset(b') {
        var i :| 0 <= i < |b'| && b'[i] == x;
        assert x.dist <= Threshold(b);
        assert x !in rest;
        assert multiset(xs)[x] == multiset(b)[x];
      }
    }
    assert multiset(b') <= multiset(b);
    SubmultisetEqual(b', b);
    TotalPermuted(b, b', Fraud());
  }

  lemma SubmultisetEqual(s: seq<Item>, t: seq<Item>)
    requires multiset(s) <= multiset(t) && |s| == |t|
    ensures multiset(s) == multiset(t)
  {
    var d := multiset(t) - multiset(s);
    assert multiset(t) == multiset(s) + d;
    assert |multiset(t)| == |multiset(s)| + |d|;
  }
}
