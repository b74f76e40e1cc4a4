/** The decision-tree shortcut: a walk over a flat table, for any table of the generated shape. */
module Tree {
  const FEATURES: nat := 16

  /** A node with a negative `left` is a leaf whose number is -1 - left. */
  datatype Node = Node(feat: nat, thr: int, left: int, right: int)

  /** The children of a node come after it, so every walk ends. */
  ghost predicate Table(nodes: seq<Node>, leafCount: nat) {
    && |nodes| > 0
    && forall i :: 0 <= i < |nodes| ==>
         if nodes[i].left < 0 then -1 - nodes[i].left < leafCount
         else nodes[i].feat < FEATURES && i < nodes[i].left < |nodes| && i < nodes[i].right < |nodes|
  }

  /** The leaf that a query reaches from `node`. */
  ghost function Walk(nodes: seq<Node>, leafCount: nat, q: seq<int>, node: nat): (leaf: nat)
    requires Table(nodes, leafCount) && |q| == FEATURES && node < |nodes|
    ensures leaf < leafCount
    decreases |nodes| - node
  {
    var n := nodes[node];
    if n.left < 0 then -1 - n.left
    else if q[n.feat] <= n.thr then Walk(nodes, leafCount, q, n.left)
    else Walk(nodes, leafCount, q, n.right)
  }

  method Predict(nodes: seq<Node>, ghost leafCount: nat, q: seq<int>) returns (leaf: nat)
    requires Table(nodes, leafCount) && |q| == FEATURES
    ensures leaf == Walk(nodes, leafCount, q, 0)
  {
    var node := 0;
    while true
      invariant 0 <= node < |nodes|
      invariant Walk(nodes, leafCount, q, node) == Walk(nodes, leafCount, q, 0)
      decreases |nodes| - node
    {
      var n := nodes[node];
      if n.left < 0 {
        return -1 - n.left;
      }
      if q[n.feat] <= n.thr {
        node := n.left;
      } else {
        node := n.right;
      }
    }
  }

  /** A single split: a query at or below the threshold goes to the left leaf, any other to the right one. */
  lemma Stump(f: nat, thr: int, q: seq<int>, a: nat, b: nat, n: nat)
    requires f < FEATURES && |q| == FEATURES && a < n && b < n
    ensures var nodes := [Node(f, thr, 1, 2), Node(0, 0, -1 - a, 0), Node(0, 0, -1 - b, 0)];
            Table(nodes, n) && Walk(nodes, n, q, 0) == if q[f] <= thr then a else b
  {
    var nodes := [Node(f, thr, 1, 2), Node(0, 0, -1 - a, 0), Node(0, 0, -1 - b, 0)];
    assert Walk(nodes, n, q, 1) == a && Walk(nodes, n, q, 2) == b;
  }

  // ---- the regions of the leaves ----

  /** A box of queries, sides included, and the leaf it belongs to. */
  datatype Region = Region(leaf: nat, low: seq<int>, high: seq<int>)

  predicate Inside(q: seq<int>, low: seq<int>, high: seq<int>) {
    |q| == |low| == |high| && forall f :: 0 <= f < |q| ==> low[f] <= q[f] <= high[f]
  }

  function Smaller(a: int, b: int): int { if a < b then a else b }

  function Larger(a: int, b: int): int { if a > b then a else b }

  /** The regions below a node, for queries in the box from `low` to `high`. */
  ghost function Regions(nodes: seq<Node>, leafCount: nat, node: nat, low: seq<int>, high: seq<int>): seq<Region>
    requires Table(nodes, leafCount) && node < |nodes| && |low| == |high| == FEATURES
    decreases |nodes| - node
  {
    var n := nodes[node];
    if n.left < 0 then [Region(-1 - n.left, low, high)]
    else
      Regions(nodes, leafCount, n.left, low, high[n.feat := Smaller(high[n.feat], n.thr)])
      + Regions(nodes, leafCount, n.right, low[n.feat := Larger(low[n.feat], n.thr + 1)], high)
  }

  lemma {:induction false} RegionsInside(nodes: seq<Node>, leafCount: nat, node: nat, low: seq<int>, high: seq<int>,
                                         q: seq<int>, i: nat)
    requires Table(nodes, leafCount) && node < |nodes| && |low| == |high| == |q| == FEATURES
    requires i < |Regions(nodes, leafCount, node, low, high)|
    requires var r := Regions(nodes, leafCount, node, low, high)[i]; Inside(q, r.low, r.high)
    ensures Inside(q, low, high)
    decreases |nodes| - node
  {
    var n := nodes[node];
    if n.left >= 0 {
      var lowerHigh := high[n.feat := Smaller(high[n.feat], n.thr)];
      var higherLow := low[n.feat := Larger(low[n.feat], n.thr + 1)];
      var left := Regions(nodes, leafCount, n.left, low, lowerHigh);
      if i < |left| {
        RegionsInside(nodes, leafCount, n.left, low, lowerHigh, q, i);
        assert forall f :: 0 <= f < FEATURES ==> lowerHigh[f] <= high[f];
      } else {
        RegionsInside(nodes, leafCount, n.right, higherLow, high, q, i - |left|);
        assert forall f :: 0 <= f < FEATURES ==> low[f] <= higherLow[f];
      }
    }
  }

  /** Region `k` is the only one the query lies in; no region for -1. */
  ghost predicate OnlyIn(rs: seq<Region>, q: seq<int>, k: int) {
    forall i :: 0 <= i < |rs| ==> (Inside(q, rs[i].low, rs[i].high) <==> i == k)
  }

  /** The query lies in region `k` alone, and it is that of the given leaf. */
  ghost predicate Lands(rs: seq<Region>, q: seq<int>, k: nat, leaf: nat) {
    k < |rs| && rs[k].leaf == leaf && OnlyIn(rs, q, k)
  }

  /** The regions partition the box: every query in it lies in exactly one, that of the leaf its walk reaches. */
  lemma {:induction false} Partition(nodes: seq<Node>, leafCount: nat, node: nat, low: seq<int>, high: seq<int>,
                                     q: seq<int>) returns (k: nat)
    requires Table(nodes, leafCount) && node < |nodes| && |low| == |high| == FEATURES && Inside(q, low, high)
    ensures |q| == FEATURES
    ensures Lands(Regions(nodes, leafCount, node, low, high), q, k, Walk(nodes, leafCount, q, node))
    decreases |nodes| - node
  {
    hide Inside, Regions, Walk, Table, Lands, OnlyIn;
    var n := nodes[node];
    RegionsStep(nodes, leafCount, node, low, high);
    WalkStep(nodes, leafCount, node, low, high, q);
    if n.left < 0 {
      k := 0;
      OneRegion(q, -1 - n.left, low, high);
    } else {
      Split(q, low, high, n.feat, n.thr);
      var lowerHigh := high[n.feat := Smaller(high[n.feat], n.thr)];
      var higherLow := low[n.feat := Larger(low[n.feat], n.thr + 1)];
      var left := Regions(nodes, leafCount, n.left, low, lowerHigh);
      var right := Regions(nodes, leafCount, n.right, higherLow, high);
      if q[n.feat] <= n.thr {
        k := Partition(nodes, leafCount, n.left, low, lowerHigh, q);
        NotInside(nodes, leafCount, n.right, higherLow, high, q);
        LandsLeft(left, right, q, k, Walk(nodes, leafCount, q, n.left));
      } else {
        var j := Partition(nodes, leafCount, n.right, higherLow, high, q);
        NotInside(nodes, leafCount, n.left, low, lowerHigh, q);
        k := |left| + j;
        LandsRight(left, right, q, j, Walk(nodes, leafCount, q, n.right));
      }
    }
  }

  lemma OneRegion(q: seq<int>, leaf: nat, low: seq<int>, high: seq<int>)
    requires Inside(q, low, high)
    ensures Lands([Region(leaf, low, high)], q, 0, leaf)
  {}

  lemma LandsLeft(left: seq<Region>, right: seq<Region>, q: seq<int>, k: nat, leaf: nat)
    requires Lands(left, q, k, leaf) && OnlyIn(right, q, -1)
    ensures Lands(left + right, q, k, leaf)
  {
    Joined(left, right, q, k, -1);
  }

  lemma LandsRight(left: seq<Region>, right: seq<Region>, q: seq<int>, k: nat, leaf: nat)
    requires Lands(right, q, k, leaf) && OnlyIn(left, q, -1)
    ensures Lands(left + right, q, |left| + k, leaf)
  {
    Joined(left, right, q, -1, k);
  }

  lemma RegionsStep(nodes: seq<Node>, leafCount: nat, node: nat, low: seq<int>, high: seq<int>)
    requires Table(nodes, leafCount) && node < |nodes| && |low| == |high| == FEATURES
    ensures var n := nodes[node];
            Regions(nodes, leafCount, node, low, high) ==
              if n.left < 0 then [Region(-1 - n.left, low, high)]
              else
                Regions(nodes, leafCount, n.left, low, high[n.feat := Smaller(high[n.feat], n.thr)])
                + Regions(nodes, leafCount, n.right, low[n.feat := Larger(low[n.feat], n.thr + 1)], high)
  {}

  lemma WalkStep(nodes: seq<Node>, leafCount: nat, node: nat, low: seq<int>, high: seq<int>, q: seq<int>)
    requires Table(nodes, leafCount) && node < |nodes| && |low| == FEATURES && Inside(q, low, high)
    ensures |q| == FEATURES
    ensures var n := nodes[node];
            n.left >= 0 ==> n.feat < FEATURES && node < n.left < |nodes| && node < n.right < |nodes|
    ensures var n := nodes[node];
            Walk(nodes, leafCount, q, node) ==
              if n.left < 0 then -1 - n.left
              else Walk(nodes, leafCount, q, if q[n.feat] <= n.thr then n.left else n.right)
  {}

  /** A query in a box is in the half on its own side of a threshold, and not in the other. */
  lemma Split(q: seq<int>, low: seq<int>, high: seq<int>, f: nat, thr: int)
    requires |low| == |high| == FEATURES && Inside(q, low, high) && f < FEATURES
    ensures Inside(q, low, high[f := Smaller(high[f], thr)]) <==> q[f] <= thr
    ensures Inside(q, low[f := Larger(low[f], thr + 1)], high) <==> q[f] > thr
  {
    var lowerHigh, higherLow := high[f := Smaller(high[f], thr)], low[f := Larger(low[f], thr + 1)];
    assert lowerHigh[f] == Smaller(high[f], thr) && higherLow[f] == Larger(low[f], thr + 1);
  }

  lemma NotInside(nodes: seq<Node>, leafCount: nat, node: nat, low: seq<int>, high: seq<int>, q: seq<int>)
    requires Table(nodes, leafCount) && node < |nodes| && |low| == |high| == |q| == FEATURES && !Inside(q, low, high)
    ensures OnlyIn(Regions(nodes, leafCount, node, low, high), q, -1)
  {
    hide Regions, Table, Inside;
    var rs := Regions(nodes, leafCount, node, low, high);
    forall i | 0 <= i < |rs| ensures !Inside(q, rs[i].low, rs[i].high) {
      if Inside(q, rs[i].low, rs[i].high) { RegionsInside(nodes, leafCount, node, low, high, q, i); }
    }
  }

  lemma Joined(left: seq<Region>, right: seq<Region>, q: seq<int>, i: int, j: int)
    requires OnlyIn(left, q, i) && OnlyIn(right, q, j) && -1 <= i < |left| && -1 <= j < |right| && (i == -1 || j == -1)
    ensures OnlyIn(left + right, q, if i >= 0 then i else if j >= 0 then |left| + j else -1)
  {
    hide Inside;
    var k := if i >= 0 then i else if j >= 0 then |left| + j else -1;
    forall n | 0 <= n < |left + right|
      ensures Inside(q, (left + right)[n].low, (left + right)[n].high) <==> n == k
    {
      if n >= |left| { assert (left + right)[n] == right[n - |left|]; }
    }
  }
}
