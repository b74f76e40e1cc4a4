/** The bitset of clusters already taken as probes: 64 words of 64 bits. */
module SeenMask {
  import opened Machine
  import opened ProbeHeap

  const SEEN_WORDS: nat := 64
  const MAX_K: nat := 4096

  predicate Bit(word: bv64, b: bv6) {
    (word >> b) & 1 != 0
  }

  lemma SetBit(word: bv64, b: bv6, c: bv6)
    ensures Bit(word | (1 << b), c) <==> b == c || Bit(word, c)
  {}

  function BitOf(cluster: nat): bv6 { (cluster % 64) as bv6 }

  lemma BitNumber(b: nat)
    requires b < 64
    ensures (b as bv6) as nat == b
  {}

  lemma BitOfInjective(c: nat, d: nat)
    requires c / 64 == d / 64 && BitOf(c) == BitOf(d)
    ensures c == d
  {
    BitNumber(c % 64);
    BitNumber(d % 64);
  }

  predicate Seen(mask: seq<bv64>, cluster: nat)
    requires |mask| == SEEN_WORDS && cluster < MAX_K
  {
    Bit(mask[cluster / 64], BitOf(cluster))
  }

  /** The mask answers for exactly the clusters in `s`. */
  ghost predicate Shows(mask: seq<bv64>, s: set<int>) {
    |mask| == SEEN_WORDS && forall c :: 0 <= c < MAX_K ==> (Seen(mask, c) <==> c in s)
  }

  function WithBit(word: bv64, b: bv6): bv64 { word | (1 << b) }

  lemma MarkOne(mask: seq<bv64>, cluster: nat, other: nat)
    requires |mask| == SEEN_WORDS && cluster < MAX_K && other < MAX_K
    ensures var w := cluster / 64;
            Seen(mask[w := WithBit(mask[w], BitOf(cluster))], other) <==> cluster == other || Seen(mask, other)
  {
    if cluster / 64 == other / 64 {
      SetBit(mask[cluster / 64], BitOf(cluster), BitOf(other));
      if BitOf(cluster) == BitOf(other) { BitOfInjective(cluster, other); }
    }
  }

  lemma MarkShows(mask: seq<bv64>, cluster: nat, marked: seq<bv64>, s: set<int>)
    requires cluster < MAX_K && Shows(mask, s)
    requires marked == mask[cluster / 64 := WithBit(mask[cluster / 64], BitOf(cluster))]
    ensures Shows(marked, s + {cluster})
  {
    forall c | 0 <= c < MAX_K ensures Seen(marked, c) <==> c in s + {cluster} {
      MarkOne(mask, cluster, c);
    }
  }

  method Mark(mask: array<bv64>, cluster: nat, ghost s: set<int>)
    requires cluster < MAX_K && Shows(mask[..], s)
    modifies mask
    ensures Shows(mask[..], s + {cluster})
  {
    var w := cluster / 64;
    ghost var before := mask[..];
    mask[w] := WithBit(mask[w], BitOf(cluster));
    MarkShows(before, cluster, mask[..], s);
  }

  /** The clusters of the probes before the first unused entry. */
  ghost function Taken(ps: seq<Probe>): set<int> {
    if ps == [] || ps[0].cluster == U32_MAX then {} else {ps[0].cluster} + Taken(ps[1..])
  }

  lemma ShowsWithin(mask: seq<bv64>, s: set<int>, t: set<int>)
    requires Shows(mask, s) && forall c :: 0 <= c < MAX_K ==> (c in s <==> c in t)
    ensures Shows(mask, t)
  {}

  lemma EmptyMask(mask: seq<bv64>)
    requires |mask| == SEEN_WORDS && forall w :: 0 <= w < SEEN_WORDS ==> mask[w] == 0
    ensures Shows(mask, {})
  {
    forall c | 0 <= c < MAX_K ensures !Seen(mask, c) { ZeroBit(BitOf(c)); }
  }

  lemma ZeroBit(b: bv6)
    ensures !Bit(0, b)
  {}

  /** The mask answers exactly for the clusters taken as probes. */
  method MarkProbes(ps: seq<Probe>) returns (mask: array<bv64>)
    requires forall i :: 0 <= i < |ps| ==> ps[i].cluster >= 0
    ensures fresh(mask) && Shows(mask[..], Taken(ps))
  {
    mask := new bv64[SEEN_WORDS](_ => 0);
    EmptyMask(mask[..]);
    ghost var marked: set<int> := {};
    var i := 0;
    while i < |ps|
      invariant 0 <= i <= |ps|
      invariant marked + Taken(ps[i..]) == Taken(ps)
      invariant Shows(mask[..], marked)
    {
      var cluster := ps[i].cluster;
      if cluster == U32_MAX {
        return;
      }
      assert ps[i..][1..] == ps[i + 1..];
      if cluster / 64 < SEEN_WORDS {
        Mark(mask, cluster, marked);
      } else {
        ShowsWithin(mask[..], marked, marked + {cluster});
      }
      marked := marked + {cluster};
      i := i + 1;
    }
  }
}
