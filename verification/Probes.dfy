/** The probe array and its count, updated in place by the heap routines. */
module Probes {
  import opened Machine
  import opened ProbeHeap

  lemma SwappedPrefix(before: seq<Probe>, after: seq<Probe>, n: nat, i: nat, j: nat)
    requires n <= |before| && i < n && j < n && after == before[i := before[j]][j := before[i]]
    ensures after[..n] == Swap(before[..n], i, j) && after[n..] == before[n..]
  {}

  /** Works on the first `n` entries; `n` is past `start` and only the proof needs it. */
  method HeapSiftUp(heap: array<Probe>, start: nat, ghost n: nat)
    requires start < n <= heap.Length
    modifies heap
    ensures heap[..n] == SiftUp(old(heap[..n]), start) && heap[n..] == old(heap[n..])
  {
    var i := start;
    while i > 0
      invariant 0 <= i < n
      invariant SiftUp(heap[..n], i) == SiftUp(old(heap[..n]), start) && heap[n..] == old(heap[n..])
    {
      var parent := (i - 1) / 2;
      if heap[i].dist > heap[parent].dist {
        ghost var before := heap[..];
        heap[i], heap[parent] := heap[parent], heap[i];
        SwappedPrefix(before, heap[..], n, i, parent);
        i := parent;
      } else {
        break;
      }
    }
  }

  /** The larger of entry `i` and its children within `size`. */
  method LargestAt(heap: array<Probe>, i: nat, size: nat, ghost n: nat) returns (largest: nat)
    requires i < size <= n <= heap.Length
    ensures largest == Largest(heap[..n], i, size)
  {
    var left := 2 * i + 1;
    var right := 2 * i + 2;
    largest := i;
    if left < size && heap[left].dist > heap[largest].dist {
      largest := left;
    }
    if right < size && heap[right].dist > heap[largest].dist {
      largest := right;
    }
  }

  method HeapSiftDown(heap: array<Probe>, start: nat, size: nat, ghost n: nat)
    requires start < size <= n <= heap.Length
    modifies heap
    ensures heap[..n] == SiftDown(old(heap[..n]), start, size) && heap[n..] == old(heap[n..])
  {
    var i := start;
    while true
      invariant i < size
      invariant SiftDown(heap[..n], i, size) == SiftDown(old(heap[..n]), start, size) && heap[n..] == old(heap[n..])
      decreases size - i
    {
      var largest := LargestAt(heap, i, size, n);
      if largest == i {
        break;
      }
      ghost var before := heap[..];
      heap[i], heap[largest] := heap[largest], heap[i];
      SwappedPrefix(before, heap[..], n, i, largest);
      i := largest;
    }
  }

  class ProbeList {
    const heap: array<Probe>
    var count: nat

    ghost predicate Valid()
      reads this
    {
      heap.Length == MAX_PROBES && count <= MAX_PROBES
    }

    ghost function Contents(): (s: seq<Probe>)
      requires Valid()
      reads this, heap
    {
      heap[..count]
    }

    constructor ()
      ensures Valid() && Contents() == [] && fresh(heap)
    {
      heap := new Probe[MAX_PROBES](_ => NO_PROBE);
      count := 0;
    }

    method Insert(cluster: int, dist: int)
      requires Valid()
      modifies this, heap
      ensures Valid() && Contents() == InsertProbe(old(Contents()), Probe(cluster, dist))
    {
      if count < MAX_PROBES {
        heap[count] := Probe(cluster, dist);
        assert heap[..count + 1] == old(heap[..count]) + [Probe(cluster, dist)];
        HeapSiftUp(heap, count, count + 1);
        count := count + 1;
        return;
      }
      if dist >= heap[0].dist {
        return;
      }
      heap[0] := Probe(cluster, dist);
      assert heap[..count] == old(heap[..count])[0 := Probe(cluster, dist)];
      HeapSiftDown(heap, 0, MAX_PROBES, MAX_PROBES);
    }

    method Sort()
      requires Valid()
      modifies heap
      ensures Valid() && Contents() == HeapSort(old(Contents()), count)
    {
      var n := count;
      while n > 1
        invariant 0 <= n <= count
        invariant HeapSort(heap[..count], n) == HeapSort(old(heap[..count]), count)
      {
        n := n - 1;
        ghost var before := heap[..];
        heap[0], heap[n] := heap[n], heap[0];
        SwappedPrefix(before, heap[..], count, 0, n);
        HeapSiftDown(heap, 0, n, count);
      }
    }
  }
}
