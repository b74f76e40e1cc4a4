/** Bounded selection of the nearest centroids with a max-heap, then a heap sort in place. */
module ProbeHeap {
  import opened Machine

  const MAX_PROBES: nat := 33

  datatype Probe = Probe(cluster: int, dist: int)

  const NO_PROBE: Probe := Probe(U32_MAX, I64_MAX)

  function Swap(h: seq<Probe>, i: nat, j: nat): (r: seq<Probe>)
    requires i < |h| && j < |h|
    ensures |r| == |h| && multiset(r) == multiset(h)
  {
    h[i := h[j]][j := h[i]]
  }

  function Parent(i: nat): (p: nat)
    requires i > 0
    ensures p < i
  {
    (i - 1) / 2
  }

  /** The first `n` entries form a max-heap, except that entry `hole` may exceed its parent. */
  ghost predicate HeapButUp(h: seq<Probe>, n: nat, hole: nat) {
    && n <= |h|
    && (forall j :: 1 <= j < n && j != hole ==> h[j].dist <= h[Parent(j)].dist)
    && (forall j :: 1 <= j < n && hole > 0 && Parent(j) == hole ==> h[j].dist <= h[Parent(hole)].dist)
  }

  /** A max-heap, except that entry `hole` may be under one of its children. */
  ghost predicate HeapButDown(h: seq<Probe>, n: nat, hole: nat) {
    && n <= |h|
    && (forall j :: 1 <= j < n && Parent(j) != hole ==> h[j].dist <= h[Parent(j)].dist)
    && (forall j :: 1 <= j < n && hole > 0 && Parent(j) == hole ==> h[j].dist <= h[Parent(hole)].dist)
  }

  ghost predicate IsHeap(h: seq<Probe>, n: nat) {
    n <= |h| && forall j :: 1 <= j < n ==> h[j].dist <= h[Parent(j)].dist
  }

  function SiftUp(h: seq<Probe>, i: nat): (r: seq<Probe>)
    requires i < |h|
    ensures |r| == |h| && multiset(r) == multiset(h)
    decreases i
  {
    if i > 0 && h[i].dist > h[Parent(i)].dist then SiftUp(Swap(h, i, Parent(i)), Parent(i)) else h
  }

  lemma {:induction false} SiftUpHeap(h: seq<Probe>, n: nat, i: nat)
    requires i < n && HeapButUp(h, n, i)
    ensures IsHeap(SiftUp(h, i), n)
    decreases i
  {
    if i > 0 && h[i].dist > h[Parent(i)].dist {
      SiftUpStep(h, n, i);
      SiftUpHeap(Swap(h, i, Parent(i)), n, Parent(i));
    }
  }

  lemma SiftUpStep(h: seq<Probe>, n: nat, i: nat)
    requires 0 < i < n && HeapButUp(h, n, i) && h[i].dist > h[Parent(i)].dist
    ensures HeapButUp(Swap(h, i, Parent(i)), n, Parent(i))
  {
    var p := Parent(i);
    var r := Swap(h, i, p);
    forall j | 1 <= j < n && j != p ensures r[j].dist <= r[Parent(j)].dist {
      if j != i && Parent(j) == i {
        assert h[j].dist <= h[p].dist;
      }
    }
    forall j | 1 <= j < n && p > 0 && Parent(j) == p ensures r[j].dist <= r[Parent(p)].dist {
      assert h[p].dist <= h[Parent(p)].dist;
    }
  }

  /** The larger of `i` and its children below `n`, the left child first on ties. */
  function Largest(h: seq<Probe>, i: nat, n: nat): (r: nat)
    requires i < n <= |h|
    ensures r == i || r == 2 * i + 1 || r == 2 * i + 2
    ensures r < n && h[i].dist <= h[r].dist
    ensures 2 * i + 1 < n ==> h[2 * i + 1].dist <= h[r].dist
    ensures 2 * i + 2 < n ==> h[2 * i + 2].dist <= h[r].dist
    ensures r != i ==> h[i].dist < h[r].dist
    ensures r == 2 * i + 2 ==> h[2 * i + 1].dist < h[r].dist
  {
    var l := if 2 * i + 1 < n && h[2 * i + 1].dist > h[i].dist then 2 * i + 1 else i;
    if 2 * i + 2 < n && h[2 * i + 2].dist > h[l].dist then 2 * i + 2 else l
  }

  function SiftDown(h: seq<Probe>, i: nat, n: nat): (r: seq<Probe>)
    requires i < n <= |h|
    ensures |r| == |h| && multiset(r) == multiset(h)
    ensures r[n..] == h[n..]
    decreases n - i
  {
    var g := Largest(h, i, n);
    if g == i then h else SiftDown(Swap(h, i, g), g, n)
  }

  lemma {:induction false} SiftDownHeap(h: seq<Probe>, n: nat, i: nat)
    requires i < n && HeapButDown(h, n, i)
    ensures IsHeap(SiftDown(h, i, n), n)
    decreases n - i
  {
    var g := Largest(h, i, n);
    if g == i {
      forall j | 1 <= j < n ensures h[j].dist <= h[Parent(j)].dist {
        if Parent(j) == i { assert j == 2 * i + 1 || j == 2 * i + 2; }
      }
    } else {
      SiftDownStep(h, n, i);
      SiftDownHeap(Swap(h, i, g), n, g);
    }
  }

  lemma SiftDownStep(h: seq<Probe>, n: nat, i: nat)
    requires i < n && HeapButDown(h, n, i) && Largest(h, i, n) != i
    ensures HeapButDown(Swap(h, i, Largest(h, i, n)), n, Largest(h, i, n))
  {
    hide Largest;
    ChildSwapped(h, n, i, Largest(h, i, n));
  }

  lemma Children(j: nat, i: nat)
    requires j > 0
    ensures Parent(j) == i <==> j == 2 * i + 1 || j == 2 * i + 2
  {}

  /** Swapping an entry with its larger child moves the only possible fault down to that child. */
  lemma ChildSwapped(h: seq<Probe>, n: nat, i: nat, g: nat)
    requires i < g < n && (g == 2 * i + 1 || g == 2 * i + 2) && HeapButDown(h, n, i) && h[i].dist <= h[g].dist
    requires forall j :: 1 <= j < n && Parent(j) == i ==> h[j].dist <= h[g].dist
    ensures HeapButDown(Swap(h, i, g), n, g)
  {
    hide Parent;
    Children(g, i);
    var r := Swap(h, i, g);
    forall j | 1 <= j < n && Parent(j) != g ensures r[j].dist <= r[Parent(j)].dist {
      Children(j, Parent(j));
      if j == i {
        assert h[g].dist <= h[Parent(i)].dist;
      }
    }
    forall j | 1 <= j < n && g > 0 && Parent(j) == g ensures r[j].dist <= r[Parent(g)].dist {
      Children(j, g);
      assert h[j].dist <= h[g].dist;
    }
  }

  /** The root of a max-heap is its largest entry. */
  lemma {:induction false} RootLargest(h: seq<Probe>, n: nat, j: nat)
    requires IsHeap(h, n) && j < n
    ensures h[j].dist <= h[0].dist
  {
    if j > 0 { RootLargest(h, n, Parent(j)); }
  }

  // ---- keeping the nearest ----

  function InsertProbe(h: seq<Probe>, p: Probe): (r: seq<Probe>)
    requires |h| <= MAX_PROBES
    ensures |r| == if |h| < MAX_PROBES then |h| + 1 else MAX_PROBES
  {
    if |h| < MAX_PROBES then SiftUp(h + [p], |h|)
    else if p.dist >= h[0].dist then h
    else SiftDown(h[0 := p], 0, MAX_PROBES)
  }

  /** An entry not above its parent, or not under its children, stays where it is: ties move nothing. */
  lemma SiftsStay(h: seq<Probe>, i: nat, n: nat)
    requires i < n <= |h|
    ensures i == 0 || h[i].dist <= h[(i - 1) / 2].dist ==> SiftUp(h, i) == h
    ensures (forall j :: i < j < n && (j == 2 * i + 1 || j == 2 * i + 2) ==> h[j].dist <= h[i].dist)
            ==> SiftDown(h, i, n) == h
  {}

  /** Thirty-three are kept; once they are, a probe no nearer than the farthest changes nothing. */
  lemma FullHeapTurnsAway(h: seq<Probe>, p: Probe)
    requires |h| <= 33
    ensures |h| < 33 ==> |InsertProbe(h, p)| == |h| + 1
    ensures |h| == 33 && p.dist >= h[0].dist ==> InsertProbe(h, p) == h
    ensures |h| == 33 && p.dist < h[0].dist ==> p in InsertProbe(h, p)
  {
    if |h| == 33 && p.dist < h[0].dist {
      var s := h[0 := p];
      assert p in multiset(s);
      assert p in multiset(SiftDown(s, 0, 33));
    }
  }

  /** The heap after every probe of `ps` has been offered in turn. */
  function Select(ps: seq<Probe>): (h: seq<Probe>)
    ensures |h| == if |ps| < MAX_PROBES then |ps| else MAX_PROBES
  {
    if ps == [] then [] else InsertProbe(Select(ps[..|ps| - 1]), ps[|ps| - 1])
  }

  /** What offering `p` to a heap adds to the probes turned away or pushed out. */
  ghost function DroppedBy(h: seq<Probe>, p: Probe): multiset<Probe> {
    if |h| < MAX_PROBES then multiset{} else if p.dist >= h[0].dist then multiset{p} else multiset{h[0]}
  }

  ghost function Dropped(ps: seq<Probe>): multiset<Probe> {
    if ps == [] then multiset{}
    else Dropped(ps[..|ps| - 1]) + DroppedBy(Select(ps[..|ps| - 1]), ps[|ps| - 1])
  }

  /** `h` keeps probes of `ps`, none farther than any probe dropped. */
  ghost predicate KeepsNearest(h: seq<Probe>, ps: seq<Probe>, dropped: multiset<Probe>) {
    && multiset(h) + dropped == multiset(ps)
    && forall i, p :: 0 <= i < |h| && p in dropped ==> h[i].dist <= p.dist
  }

  lemma PushHeap(h: seq<Probe>, p: Probe)
    requires |h| < MAX_PROBES && IsHeap(h, |h|)
    ensures IsHeap(InsertProbe(h, p), |h| + 1)
    ensures multiset(InsertProbe(h, p)) == multiset(h) + multiset{p}
  {
    SiftUpHeap(h + [p], |h| + 1, |h|);
  }

  lemma ReplaceRootHeap(h: seq<Probe>, p: Probe)
    requires |h| == MAX_PROBES && IsHeap(h, |h|) && p.dist < h[0].dist
    ensures IsHeap(InsertProbe(h, p), |h|)
    ensures multiset(InsertProbe(h, p)) + multiset{h[0]} == multiset(h) + multiset{p}
  {
    SiftDownHeap(h[0 := p], MAX_PROBES, 0);
    assert multiset(h[0 := p]) == multiset(h) - multiset{h[0]} + multiset{p};
    assert h[0] in multiset(h);
  }

  lemma InMultiset(h: seq<Probe>, x: Probe) returns (i: nat)
    requires x in multiset(h)
    ensures i < |h| && h[i] == x
  {
    i :| 0 <= i < |h| && h[i] == x;
  }

  lemma PushKeeps(h: seq<Probe>, p: Probe, before: seq<Probe>)
    requires |h| < MAX_PROBES && IsHeap(h, |h|) && KeepsNearest(h, before, multiset{})
    ensures KeepsNearest(InsertProbe(h, p), before + [p], multiset{})
  {
    PushHeap(h, p);
  }

  lemma TurnAwayKeeps(h: seq<Probe>, p: Probe, before: seq<Probe>, dropped: multiset<Probe>)
    requires |h| == MAX_PROBES && IsHeap(h, |h|) && p.dist >= h[0].dist && KeepsNearest(h, before, dropped)
    ensures KeepsNearest(h, before + [p], dropped + multiset{p})
  {
    forall i | 0 <= i < |h| ensures h[i].dist <= p.dist { RootLargest(h, |h|, i); }
  }

  lemma PushOutKeeps(h: seq<Probe>, p: Probe, before: seq<Probe>, dropped: multiset<Probe>)
    requires |h| == MAX_PROBES && IsHeap(h, |h|) && p.dist < h[0].dist && KeepsNearest(h, before, dropped)
    ensures KeepsNearest(InsertProbe(h, p), before + [p], dropped + multiset{h[0]})
  {
    ReplaceRootHeap(h, p);
    ReplaceRootKeeps(h, p, dropped);
    var r := InsertProbe(h, p);
    assert multiset(r) + (dropped + multiset{h[0]}) == multiset(h) + dropped + multiset{p};
  }

  lemma InsertProbeKeeps(h: seq<Probe>, p: Probe, before: seq<Probe>, dropped: multiset<Probe>)
    requires |h| <= MAX_PROBES && IsHeap(h, |h|) && KeepsNearest(h, before, dropped)
    requires |h| < MAX_PROBES ==> dropped == multiset{}
    ensures IsHeap(InsertProbe(h, p), |InsertProbe(h, p)|)
    ensures KeepsNearest(InsertProbe(h, p), before + [p], dropped + DroppedBy(h, p))
  {
    if |h| < MAX_PROBES {
      PushHeap(h, p);
      PushKeeps(h, p, before);
      assert dropped + DroppedBy(h, p) == multiset{};
    } else if p.dist >= h[0].dist {
      TurnAwayKeeps(h, p, before, dropped);
    } else {
      ReplaceRootHeap(h, p);
      PushOutKeeps(h, p, before, dropped);
    }
  }

  lemma {:induction false} SmallSelectDropsNothing(ps: seq<Probe>)
    requires |ps| < MAX_PROBES
    ensures Dropped(ps) == multiset{}
  {
    if ps != [] { SmallSelectDropsNothing(ps[..|ps| - 1]); }
  }

  ghost predicate Selected(h: seq<Probe>, ps: seq<Probe>, dropped: multiset<Probe>) {
    IsHeap(h, |h|) && KeepsNearest(h, ps, dropped)
  }

  /** Whatever the sequence, the heap holds a set of its 33 smallest distances. */
  lemma {:induction false} SelectKeepsNearest(ps: seq<Probe>)
    ensures Selected(Select(ps), ps, Dropped(ps))
  {
    if ps == [] {
      assert Selected([], [], multiset{});
    } else {
      var before, p := ps[..|ps| - 1], ps[|ps| - 1];
      assert before + [p] == ps;
      SelectKeepsNearest(before);
      var h, dropped := Select(before), Dropped(before);
      if |h| < MAX_PROBES { SmallSelectDropsNothing(before); }
      InsertProbeKeeps(h, p, before, dropped);
      assert Selected(InsertProbe(h, p), ps, dropped + DroppedBy(h, p));
      assert Select(ps) == InsertProbe(h, p);
      assert Dropped(ps) == dropped + DroppedBy(h, p);
    }
  }

  lemma ReplaceRootKeeps(h: seq<Probe>, p: Probe, dropped: multiset<Probe>)
    requires |h| == MAX_PROBES && IsHeap(h, |h|) && p.dist < h[0].dist
    requires forall i, x :: 0 <= i < |h| && x in dropped ==> h[i].dist <= x.dist
    ensures forall i, x :: 0 <= i < MAX_PROBES && x in dropped + multiset{h[0]} ==>
              InsertProbe(h, p)[i].dist <= x.dist
  {
    var r := InsertProbe(h, p);
    ReplaceRootHeap(h, p);
    forall i, x | 0 <= i < MAX_PROBES && x in dropped + multiset{h[0]} ensures r[i].dist <= x.dist {
      assert r[i] in multiset(r);
      assert r[i] in multiset(h) + multiset{p};
      if r[i] != p {
        var k := InMultiset(h, r[i]);
        RootLargest(h, |h|, k);
      }
      assert h[0].dist <= x.dist;
    }
  }

  // ---- sorting ----

  ghost predicate AscendingFrom(h: seq<Probe>, n: nat) {
    forall i, j :: n <= i <= j < |h| ==> h[i].dist <= h[j].dist
  }

  function HeapSort(h: seq<Probe>, n: nat): (r: seq<Probe>)
    requires n <= |h|
    ensures |r| == |h| && multiset(r) == multiset(h)
    decreases n
  {
    if n <= 1 then h else HeapSort(SiftDown(Swap(h, 0, n - 1), 0, n - 1), n - 1)
  }

  /** The first `n` are a heap, the rest ascend, and nothing in the heap exceeds the rest. */
  ghost predicate PartlySorted(h: seq<Probe>, n: nat) {
    && IsHeap(h, n)
    && AscendingFrom(h, n)
    && forall i, j :: 0 <= i < n <= j < |h| ==> h[i].dist <= h[j].dist
  }

  lemma SamePrefix(h: seq<Probe>, r: seq<Probe>, n: nat)
    requires n <= |h| == |r| && multiset(r) == multiset(h) && r[n..] == h[n..]
    ensures multiset(r[..n]) == multiset(h[..n])
  {
    assert h == h[..n] + h[n..] && r == r[..n] + r[n..];
    assert multiset(h[..n]) == multiset(h) - multiset(h[n..]);
    assert multiset(r[..n]) == multiset(r) - multiset(r[n..]);
  }

  /** Sifting within the first `n` keeps every bound on what they hold. */
  lemma SiftDownBound(s: seq<Probe>, n: nat, bound: int)
    requires 0 < n <= |s| && forall i :: 0 <= i < n ==> s[i].dist <= bound
    ensures forall i :: 0 <= i < n ==> SiftDown(s, 0, n)[i].dist <= bound
  {
    var r := SiftDown(s, 0, n);
    SamePrefix(s, r, n);
    forall i | 0 <= i < n ensures r[i].dist <= bound {
      assert r[..n][i] == r[i];
      assert r[i] in multiset(r[..n]);
      var k := InMultiset(s[..n], r[i]);
    }
  }

  lemma SiftDownTail(s: seq<Probe>, n: nat, r: seq<Probe>)
    requires 0 < n <= |s| && r == SiftDown(s, 0, n)
    ensures forall j :: n <= j < |s| ==> r[j] == s[j]
  {
    forall j | n <= j < |s| ensures r[j] == s[j] {
      assert r[n..][j - n] == s[n..][j - n];
    }
  }

  lemma SwapOut(h: seq<Probe>, n: nat, s: seq<Probe>)
    requires 2 <= n <= |h| && PartlySorted(h, n) && s == Swap(h, 0, n - 1)
    ensures HeapButDown(s, n - 1, 0)
    ensures forall i :: 0 <= i < n ==> s[i].dist <= h[0].dist
    ensures forall j :: n - 1 <= j < |h| ==> h[0].dist <= s[j].dist
    ensures AscendingFrom(s, n - 1)
  {
    forall i | 0 <= i < n ensures h[i].dist <= h[0].dist { RootLargest(h, n, i); }
  }

  lemma SortedPast(s: seq<Probe>, r: seq<Probe>, n: nat, bound: int)
    requires |r| == |s| && IsHeap(r, n) && AscendingFrom(s, n)
    requires forall i :: 0 <= i < n ==> r[i].dist <= bound
    requires forall j :: n <= j < |s| ==> r[j] == s[j] && bound <= s[j].dist
    ensures PartlySorted(r, n)
  {}

  lemma SortStep(h: seq<Probe>, n: nat)
    requires 2 <= n <= |h| && PartlySorted(h, n)
    ensures PartlySorted(SiftDown(Swap(h, 0, n - 1), 0, n - 1), n - 1)
  {
    var s := Swap(h, 0, n - 1);
    var r := SiftDown(s, 0, n - 1);
    SwapOut(h, n, s);
    SiftDownHeap(s, n - 1, 0);
    SiftDownBound(s, n - 1, h[0].dist);
    SiftDownTail(s, n - 1, r);
    SortedPast(s, r, n - 1, h[0].dist);
  }

  lemma {:induction false} HeapSortAscends(h: seq<Probe>, n: nat)
    requires PartlySorted(h, n)
    ensures AscendingFrom(HeapSort(h, n), 0)
    decreases n
  {
    if n > 1 {
      SortStep(h, n);
      HeapSortAscends(SiftDown(Swap(h, 0, n - 1), 0, n - 1), n - 1);
    }
  }

  /** Selecting and sorting: an ascending list of a set of the 33 smallest. */
  function Nearest(ps: seq<Probe>): (r: seq<Probe>)
    ensures |r| == if |ps| < MAX_PROBES then |ps| else MAX_PROBES
  {
    HeapSort(Select(ps), |Select(ps)|)
  }

  lemma NearestIsSorted(ps: seq<Probe>)
    ensures AscendingFrom(Nearest(ps), 0)
    ensures KeepsNearest(Nearest(ps), ps, Dropped(ps))
  {
    var h := Select(ps);
    SelectKeepsNearest(ps);
    HeapSortAscends(h, |h|);
    var r := HeapSort(h, |h|);
    forall i, p | 0 <= i < |r| && p in Dropped(ps) ensures r[i].dist <= p.dist {
      assert r[i] in multiset(r);
      var k := InMultiset(h, r[i]);
    }
  }
}
