/** The two parallel arrays that hold the five nearest, updated in place. */
module Scoreboard {
  import opened Machine
  import opened TopFive

  /** Mid-shift: entries up to `pos` are where they were, those after it came from one place before. */
  ghost predicate Shifted(d: seq<int>, l: seq<int>, items: seq<Item>, pos: nat) {
    && |d| == |l| == |items| == TOP_K && pos < TOP_K
    && (forall i :: 0 <= i <= pos ==> d[i] == items[i].dist && l[i] == items[i].fraud)
    && (forall i :: pos < i < TOP_K ==> d[i] == items[i - 1].dist && l[i] == items[i - 1].fraud)
  }

  ghost predicate Mirrors(d: seq<int>, l: seq<int>, items: seq<Item>) {
    && |d| == |l| == |items| == TOP_K
    && forall i :: 0 <= i < TOP_K ==> d[i] == items[i].dist && l[i] == items[i].fraud
  }

  lemma Written(d: seq<int>, l: seq<int>, items: seq<Item>, pos: nat, x: Item)
    requires Shifted(d, l, items, pos)
    ensures Mirrors(d[pos := x.dist], l[pos := x.fraud], items[..pos] + [x] + items[pos..TOP_K - 1])
  {}

  class Best {
    const dists: array<int>
    const labels: array<int>
    ghost var items: seq<Item>

    ghost predicate Valid()
      reads this, dists, labels
    {
      && dists.Length == TOP_K && labels.Length == TOP_K && dists != labels
      && Mirrors(dists[..], labels[..], items)
    }

    constructor ()
      ensures Valid() && items == EMPTY
      ensures fresh(dists) && fresh(labels)
    {
      dists := new int[TOP_K](_ => I64_MAX);
      labels := new int[TOP_K](_ => 0);
      items := EMPTY;
    }

    /** Shifts the farther entries down one place and writes the new one. */
    method InsertBest(dist: int, mark: int, ghost slot: int)
      requires Valid()
      modifies this, dists, labels
      ensures Valid() && items == Insert(old(items), Item(dist, mark, slot))
    {
      if dist >= dists[TOP_K - 1] {
        return;
      }
      ghost var x := Item(dist, mark, slot);
      var pos := TOP_K - 1;
      while pos > 0 && dist < dists[pos - 1]
        invariant 0 <= pos <= TOP_K - 1 && items == old(items)
        invariant Place(items, x, pos) == Place(items, x, TOP_K - 1)
        invariant Shifted(dists[..], labels[..], items, pos)
      {
        dists[pos] := dists[pos - 1];
        labels[pos] := labels[pos - 1];
        pos := pos - 1;
      }
      Written(dists[..], labels[..], items, pos, x);
      dists[pos] := dist;
      labels[pos] := mark;
      items := items[..pos] + [x] + items[pos..TOP_K - 1];
    }

    method CountFrauds() returns (n: int)
      requires Valid()
      ensures n == Frauds(items)
    {
      n := 0;
      for j := 0 to TOP_K
        invariant n == Frauds(items[..j])
      {
        assert items[..j + 1][..j] == items[..j];
        n := n + labels[j];
      }
      assert items[..TOP_K] == items;
    }
  }
}
