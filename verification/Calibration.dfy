/** Choosing the leaves where the tree may answer for the search, and replaying the samples with the choice. */
module Calibration {
  import opened Tree
  import opened Geometry
  import opened TopFive
  import opened Index
  import opened SearchSpec
  import Search

  /** What a leaf says: the fraud count it stands for, and how pure it was in training. */
  datatype Leaf = Leaf(count: nat, purity: nat)

  datatype Sample = Sample(query: seq<int>, expectedApproved: bool)

  /** The fixed inputs: the tree, its leaves, and the index that is searched. */
  datatype Setup = Setup(nodes: seq<Node>, leaves: seq<Leaf>, ix: Index) {
    ghost predicate Valid() { Table(nodes, |leaves|) && WF(ix) }
  }

  function Clamp(x: int): int { if x > 5 then 5 else x }

  predicate Approves(frauds: int) { frauds <= 2 }

  ghost predicate Samples(samples: seq<Sample>) {
    forall i :: 0 <= i < |samples| ==> Query(samples[i].query)
  }

  ghost function LeafOf(s: Setup, x: Sample): (leaf: nat)
    requires s.Valid() && Query(x.query)
    ensures leaf < |s.leaves|
  {
    Walk(s.nodes, |s.leaves|, x.query, 0)
  }

  /** What the search answers: the frauds of the five its run keeps. */
  ghost function SearchScore(s: Setup, q: seq<int>): int
    requires s.Valid() && Query(q)
  {
    Frauds(Run(s.ix, q).state.best)
  }

  ghost function Searched(s: Setup, x: Sample): int
    requires s.Valid() && Query(x.query)
  {
    Clamp(SearchScore(s, x.query))
  }

  // ---- the confusion matrix ----

  datatype Matrix = Matrix(tp: nat, tn: nat, fp: nat, fn: nat)

  function Tally(m: Matrix, approved: bool, expected: bool): Matrix {
    if approved && expected then m.(tn := m.tn + 1)
    else if !approved && !expected then m.(tp := m.tp + 1)
    else if approved then m.(fn := m.fn + 1)
    else m.(fp := m.fp + 1)
  }

  ghost function Baseline(s: Setup, samples: seq<Sample>): Matrix
    requires s.Valid() && Samples(samples)
  {
    if samples == [] then Matrix(0, 0, 0, 0)
    else
      var x := samples[|samples| - 1];
      Tally(Baseline(s, samples[..|samples| - 1]), Approves(Searched(s, x)), x.expectedApproved)
  }

  /** How many samples have up to two frauds, or more, and were expected to be approved or not. */
  ghost function CountOf(s: Setup, samples: seq<Sample>, few: bool, expected: bool): nat
    requires s.Valid() && Samples(samples)
  {
    if samples == [] then 0
    else
      var x := samples[|samples| - 1];
      CountOf(s, samples[..|samples| - 1], few, expected)
      + if (SearchScore(s, x.query) <= 2) == few && x.expectedApproved == expected then 1 else 0
  }

  /**
   * The four counters: a fraud is a sample with three or more. True positives were denied and expected so, true
   * negatives approved and expected so; a false positive should have been approved, a false negative denied.
   */
  lemma {:induction false} BaselineCounts(s: Setup, samples: seq<Sample>)
    requires s.Valid() && Samples(samples)
    ensures Baseline(s, samples) == Matrix(CountOf(s, samples, false, false), CountOf(s, samples, true, true),
                                           CountOf(s, samples, false, true), CountOf(s, samples, true, false))
  {
    hide WF, Query, Table, SearchScore;
    if samples != [] { BaselineCounts(s, samples[..|samples| - 1]); }
  }

  // ---- the buckets ----

  datatype Bucket = Bucket(count: nat, scores: map<int, nat>, counts: map<nat, nat>, purity: nat)

  function Bump<K(==)>(m: map<K, nat>, key: K): map<K, nat> {
    m[key := (if key in m then m[key] else 0) + 1]
  }

  /** How many of the samples reach a leaf. */
  ghost function Reaching(s: Setup, samples: seq<Sample>, leaf: nat): nat
    requires s.Valid() && Samples(samples)
  {
    if samples == [] then 0
    else
      Reaching(s, samples[..|samples| - 1], leaf)
      + if LeafOf(s, samples[|samples| - 1]) == leaf then 1 else 0
  }

  /** A bucket records the samples that reached its leaf: how many, and which scores and tree counts they gave. */
  ghost predicate BucketOf(s: Setup, samples: seq<Sample>, leaf: nat, b: Bucket)
    requires s.Valid() && Samples(samples)
  {
    && leaf < |s.leaves|
    && b.count == Reaching(s, samples, leaf) && b.count > 0
    && b.purity == s.leaves[leaf].purity
    && b.counts.Keys == {s.leaves[leaf].count}
    && b.scores.Keys == set i | 0 <= i < |samples| && LeafOf(s, samples[i]) == leaf :: Searched(s, samples[i])
  }

  ghost predicate Buckets(s: Setup, samples: seq<Sample>, bs: map<nat, Bucket>)
    requires s.Valid() && Samples(samples)
  {
    && (forall leaf :: leaf in bs ==> BucketOf(s, samples, leaf, bs[leaf]))
    && (forall i :: 0 <= i < |samples| ==> LeafOf(s, samples[i]) in bs)
  }

  function Updated(bs: map<nat, Bucket>, leaf: nat, l: Leaf, score: int): map<nat, Bucket> {
    var b := if leaf in bs then bs[leaf] else Bucket(0, map[], map[], l.purity);
    bs[leaf := Bucket(b.count + 1, Bump(b.scores, score), Bump(b.counts, l.count), b.purity)]
  }

  lemma {:induction false} NoneReach(s: Setup, samples: seq<Sample>, leaf: nat)
    requires s.Valid() && Samples(samples)
    ensures Reaching(s, samples, leaf) == 0 <==> forall i :: 0 <= i < |samples| ==> LeafOf(s, samples[i]) != leaf
  {
    hide WF, Query, Table, Searched, LeafOf;
    if samples != [] {
      var rest := samples[..|samples| - 1];
      NoneReach(s, rest, leaf);
      assert forall i :: 0 <= i < |rest| ==> rest[i] == samples[i];
    }
  }

  lemma BucketsNext(s: Setup, before: seq<Sample>, x: Sample, bs: map<nat, Bucket>, leaf: nat)
    requires s.Valid() && Query(x.query) && Samples(before + [x]) && Samples(before)
    requires Buckets(s, before, bs) && leaf == LeafOf(s, x)
    ensures Buckets(s, before + [x], Updated(bs, leaf, s.leaves[leaf], Searched(s, x)))
  {
    hide WF, Query, Table, Searched, LeafOf;
    var after := before + [x];
    var bs' := Updated(bs, leaf, s.leaves[leaf], Searched(s, x));
    assert after[..|before|] == before;
    forall l | l in bs' ensures BucketOf(s, after, l, bs'[l]) {
      if l == leaf {
        BucketGrows(s, before, x, bs, leaf);
      } else {
        assert BucketOf(s, before, l, bs[l]);
        assert after[|before|] == x;
        assert forall i :: 0 <= i < |before| ==> after[i] == before[i];
      }
    }
  }

  lemma BucketGrows(s: Setup, before: seq<Sample>, x: Sample, bs: map<nat, Bucket>, leaf: nat)
    requires s.Valid() && Query(x.query) && Samples(before + [x]) && Samples(before)
    requires Buckets(s, before, bs) && leaf == LeafOf(s, x)
    ensures BucketOf(s, before + [x], leaf, Updated(bs, leaf, s.leaves[leaf], Searched(s, x))[leaf])
  {
    hide WF, Query, Table, Searched, LeafOf;
    var after := before + [x];
    assert after[..|before|] == before && after[|before|] == x;
    assert forall i :: 0 <= i < |before| ==> after[i] == before[i];
    if leaf in bs {
      assert BucketOf(s, before, leaf, bs[leaf]);
    } else {
      NoneReach(s, before, leaf);
    }
  }

  // ---- the choice ----

  /** The bars for admission: enough samples, fewer where the leaf was pure in training. */
  predicate Enough(count: nat, purity: nat, minObs: nat, minPure: nat) {
    count >= minObs || (purity == 1000 && count >= minPure)
  }

  /** All samples at the leaf got one score from the search, and the tree stores that very score. */
  ghost predicate Agreed(s: Setup, samples: seq<Sample>, leaf: nat)
    requires s.Valid() && Samples(samples) && leaf < |s.leaves|
  {
    forall i :: 0 <= i < |samples| && LeafOf(s, samples[i]) == leaf ==> Searched(s, samples[i]) == s.leaves[leaf].count
  }

  ghost predicate SafeLeaf(s: Setup, samples: seq<Sample>, leaf: nat, minObs: nat, minPure: nat)
    requires s.Valid() && Samples(samples) && leaf < |s.leaves|
  {
    && Reaching(s, samples, leaf) > 0
    && Enough(Reaching(s, samples, leaf), s.leaves[leaf].purity, minObs, minPure)
    && Agreed(s, samples, leaf)
  }

  lemma OneElement(xs: set<int>, a: int)
    requires a in xs
    ensures |xs| == 1 <==> forall b :: b in xs ==> b == a
  {
    var rest := xs - {a};
    assert xs == rest + {a} && |xs| == |rest| + 1;
    if forall b :: b in xs ==> b == a {
      assert rest == {};
    } else {
      var b :| b in xs && b != a;
      assert b in rest;
    }
  }

  lemma AgreedIff(s: Setup, samples: seq<Sample>, leaf: nat, b: Bucket, first: int)
    requires s.Valid() && Samples(samples) && BucketOf(s, samples, leaf, b) && first in b.scores
    ensures Agreed(s, samples, leaf) <==> |b.scores.Keys| == 1 && first == s.leaves[leaf].count
  {
    hide WF, Query, Table, Searched, LeafOf;
    OneElement(b.scores.Keys, first);
    if Agreed(s, samples, leaf) {
      forall v | v in b.scores.Keys ensures v == s.leaves[leaf].count {}
    }
    if |b.scores.Keys| == 1 && first == s.leaves[leaf].count {
      forall i | 0 <= i < |samples| && LeafOf(s, samples[i]) == leaf
        ensures Searched(s, samples[i]) == s.leaves[leaf].count
      {
        assert Searched(s, samples[i]) in b.scores.Keys;
      }
    }
  }

  lemma ScoresNotEmpty(s: Setup, samples: seq<Sample>, leaf: nat, b: Bucket)
    requires s.Valid() && Samples(samples) && BucketOf(s, samples, leaf, b)
    ensures b.scores.Keys != {}
  {
    hide WF, Query, Table, Searched, LeafOf;
    NoneReach(s, samples, leaf);
    var i :| 0 <= i < |samples| && LeafOf(s, samples[i]) == leaf;
    assert Searched(s, samples[i]) in b.scores.Keys;
  }

  method JudgeLeaf(ghost s: Setup, ghost samples: seq<Sample>, leaf: nat, b: Bucket, minObs: nat, minPure: nat)
    returns (safe: bool)
    requires s.Valid() && Samples(samples) && BucketOf(s, samples, leaf, b)
    ensures safe <==> SafeLeaf(s, samples, leaf, minObs, minPure)
  {
    hide WF, Query, Table, Searched, LeafOf;
    if b.count < minObs && !(b.purity == 1000 && b.count >= minPure) {
      return false;
    }
    ScoresNotEmpty(s, samples, leaf, b);
    var knnScore :| knnScore in b.scores;
    AgreedIff(s, samples, leaf, b, knnScore);
    if |b.scores.Keys| != 1 {
      return false;
    }
    assert |b.counts.Keys| == 1;
    var treeCount :| treeCount in b.counts;
    return treeCount == knnScore;
  }

  // ---- the program ----

  datatype Outcome = Aborted | Drift | Calibrated(safe: seq<bool>)

  lemma NoBuckets(s: Setup)
    requires s.Valid()
    ensures Samples([]) && Buckets(s, [], map[]) && Baseline(s, []) == Matrix(0, 0, 0, 0)
  {}

  lemma UnseenIsUnsafe(s: Setup, samples: seq<Sample>, leaf: nat, minObs: nat, minPure: nat)
    requires s.Valid() && Samples(samples) && leaf < |s.leaves|
    requires forall i :: 0 <= i < |samples| ==> LeafOf(s, samples[i]) != leaf
    ensures !SafeLeaf(s, samples, leaf, minObs, minPure)
  {
    hide WF, Query, Table, LeafOf;
    NoneReach(s, samples, leaf);
  }

  lemma BaselineNext(s: Setup, before: seq<Sample>, x: Sample)
    requires s.Valid() && Samples(before) && Query(x.query)
    ensures Samples(before + [x])
    ensures Baseline(s, before + [x]) == Tally(Baseline(s, before), Approves(Searched(s, x)), x.expectedApproved)
  {
    hide WF, Query, Table, Searched;
    assert (before + [x])[..|before|] == before;
  }

  /** One sample: searched, tallied, and put into the bucket of the leaf it reaches. */
  method ScoreSample(build: Search.Build, s: Setup, x: Sample, bs: map<nat, Bucket>, m: Matrix,
                     ghost before: seq<Sample>) returns (bs': map<nat, Bucket>, m': Matrix)
    requires s.Valid() && Samples(before) && Query(x.query) && Buckets(s, before, bs) && m == Baseline(s, before)
    ensures Samples(before + [x]) && Buckets(s, before + [x], bs') && m' == Baseline(s, before + [x])
  {
    hide WF, Table, Buckets, Samples, Updated, Tally, Baseline;
    BaselineNext(s, before, x);
    var leaf := Predict(s.nodes, |s.leaves|, x.query);
    var frauds := Search.ScoreQ(build, s.ix, x.query);
    if frauds > 5 {
      frauds := 5;
    }
    m' := Tally(m, Approves(frauds), x.expectedApproved);
    BucketsNext(s, before, x, bs, leaf);
    bs' := Updated(bs, leaf, s.leaves[leaf], frauds);
  }

  method Score(build: Search.Build, s: Setup, samples: seq<Sample>) returns (bs: map<nat, Bucket>, m: Matrix)
    requires s.Valid() && Samples(samples)
    ensures Buckets(s, samples, bs) && m == Baseline(s, samples)
  {
    hide WF, Query, Table, Buckets, Baseline;
    bs, m := map[], Matrix(0, 0, 0, 0);
    NoBuckets(s);
    assert samples[..0] == [];
    for i := 0 to |samples|
      invariant Samples(samples[..i]) && Buckets(s, samples[..i], bs) && m == Baseline(s, samples[..i])
    {
      assert samples[..i] + [samples[i]] == samples[..i + 1];
      bs, m := ScoreSample(build, s, samples[i], bs, m, samples[..i]);
    }
    assert samples[..|samples|] == samples;
  }

  method Choose(s: Setup, ghost samples: seq<Sample>, bs: map<nat, Bucket>, minObs: nat, minPure: nat)
    returns (safe: seq<bool>)
    requires s.Valid() && Samples(samples) && Buckets(s, samples, bs)
    ensures |safe| == |s.leaves|
    ensures forall leaf :: 0 <= leaf < |safe| ==> (safe[leaf] <==> SafeLeaf(s, samples, leaf, minObs, minPure))
  {
    hide WF, Query, Table, Searched, LeafOf, SafeLeaf;
    safe := [];
    for leaf := 0 to |s.leaves|
      invariant |safe| == leaf
      invariant forall l :: 0 <= l < leaf ==> (safe[l] <==> SafeLeaf(s, samples, l, minObs, minPure))
    {
      var ok := false;
      if leaf in bs {
        ok := JudgeLeaf(s, samples, leaf, bs[leaf], minObs, minPure);
      } else {
        UnseenIsUnsafe(s, samples, leaf, minObs, minPure);
      }
      safe := safe + [ok];
    }
  }

  /** On every sample, a safe leaf answers exactly what the search answers. */
  lemma SafeAnswers(s: Setup, samples: seq<Sample>, safe: seq<bool>, minObs: nat, minPure: nat, i: nat)
    requires s.Valid() && Samples(samples) && |safe| == |s.leaves| && i < |samples|
    requires forall leaf :: 0 <= leaf < |safe| ==> (safe[leaf] <==> SafeLeaf(s, samples, leaf, minObs, minPure))
    ensures safe[LeafOf(s, samples[i])] ==> s.leaves[LeafOf(s, samples[i])].count == Searched(s, samples[i])
  {}

  method Replay(build: Search.Build, s: Setup, samples: seq<Sample>, safe: seq<bool>,
                ghost minObs: nat, ghost minPure: nat) returns (m: Matrix)
    requires s.Valid() && Samples(samples) && |safe| == |s.leaves|
    requires forall leaf :: 0 <= leaf < |safe| ==> (safe[leaf] <==> SafeLeaf(s, samples, leaf, minObs, minPure))
    ensures m == Baseline(s, samples)
  {
    hide WF, Query, Table, SafeLeaf, SearchScore, Answer, Searched;
    m := Matrix(0, 0, 0, 0);
    for i := 0 to |samples|
      invariant Samples(samples[..i]) && m == Baseline(s, samples[..i])
    {
      SampleIsQuery(samples, i);
      AgreesOnSample(s, samples, safe, minObs, minPure, i);
      var x := samples[i];
      var frauds := AnswerQuery(build, s, safe, x.query);
      m := Tally(m, Approves(frauds), x.expectedApproved);
      assert samples[..i + 1][..i] == samples[..i];
      MoreSamples(samples, i + 1);
    }
    assert samples[..|samples|] == samples;
  }

  /**
   * The calibration: it gives up exactly when the search itself disagrees with an expectation, the replay never
   * drifts, and the leaves chosen are exactly those where every sample got from the search what the tree stores. With
   * them the server answers every sample as the search alone would.
   */
  method Calibrate(build: Search.Build, s: Setup, samples: seq<Sample>, minObs: nat, minPure: nat)
    returns (r: Outcome)
    requires s.Valid() && Samples(samples)
    ensures r != Drift
    ensures r == Aborted <==> exists i :: 0 <= i < |samples| && Mismatch(s, samples[i])
    ensures r.Calibrated? ==> |r.safe| == |s.leaves|
                              && forall leaf :: 0 <= leaf < |r.safe| ==>
                                   (r.safe[leaf] <==> SafeLeaf(s, samples, leaf, minObs, minPure))
    ensures r.Calibrated? ==> forall i :: 0 <= i < |samples| ==>
              Answer(s, r.safe, samples[i].query) == Searched(s, samples[i])
  {
    hide Samples, SafeLeaf, SearchScore, Buckets, Baseline, Mismatch, Answer, Searched;
    var bs, m := Score(build, s, samples);
    BaselineErrors(s, samples);
    if m.fp != 0 || m.fn != 0 {
      return Aborted;
    }
    var safe := Choose(s, samples, bs, minObs, minPure);
    var again := Replay(build, s, samples, safe, minObs, minPure);
    if again.fp != m.fp || again.fn != m.fn || again.tp != m.tp || again.tn != m.tn {
      return Drift;
    }
    ServerAgreesOnSamples(s, samples, safe, minObs, minPure);
    return Calibrated(safe);
  }

  ghost predicate Mismatch(s: Setup, x: Sample)
    requires s.Valid() && Query(x.query)
  {
    Approves(Searched(s, x)) != x.expectedApproved
  }

  lemma {:induction false} BaselineErrors(s: Setup, samples: seq<Sample>)
    requires s.Valid() && Samples(samples)
    ensures Baseline(s, samples).fp + Baseline(s, samples).fn > 0
       <==> exists i :: 0 <= i < |samples| && Mismatch(s, samples[i])
  {
    hide WF, Query, Table, Searched;
    if samples != [] {
      var rest, x := samples[..|samples| - 1], samples[|samples| - 1];
      BaselineErrors(s, rest);
      assert forall i :: 0 <= i < |rest| ==> samples[i] == rest[i];
      if Mismatch(s, x) { assert Mismatch(s, samples[|samples| - 1]); }
      if i :| 0 <= i < |rest| && Mismatch(s, rest[i]) { assert Mismatch(s, samples[i]); }
      if i :| 0 <= i < |samples| && Mismatch(s, samples[i]) {
        if i < |rest| { assert Mismatch(s, rest[i]); }
      }
    }
  }

  // ---- the server ----

  /** The score the server answers with: the leaf's where it is safe, the search's elsewhere, at most five. */
  ghost function Answer(s: Setup, safe: seq<bool>, q: seq<int>): int
    requires s.Valid() && Query(q)
  {
    var leaf := Walk(s.nodes, |s.leaves|, q, 0);
    Clamp(if leaf < |safe| && safe[leaf] then s.leaves[leaf].count else SearchScore(s, q))
  }

  method AnswerQuery(build: Search.Build, s: Setup, safe: seq<bool>, q: seq<int>) returns (frauds: int)
    requires s.Valid() && Query(q)
    ensures frauds == Answer(s, safe, q)
  {
    var leaf := Predict(s.nodes, |s.leaves|, q);
    if leaf < |safe| && safe[leaf] {
      frauds := s.leaves[leaf].count;
    } else {
      frauds := Search.ScoreQ(build, s.ix, q);
    }
    if frauds > 5 {
      frauds := 5;
    }
  }

  lemma SampleIsQuery(samples: seq<Sample>, i: nat)
    requires Samples(samples) && i < |samples|
    ensures Query(samples[i].query)
  {}

  lemma MoreSamples(samples: seq<Sample>, n: nat)
    requires Samples(samples) && n <= |samples|
    ensures Samples(samples[..n])
  {}

  lemma AgreesOnSample(s: Setup, samples: seq<Sample>, safe: seq<bool>, minObs: nat, minPure: nat, i: nat)
    requires s.Valid() && Samples(samples) && |safe| == |s.leaves| && i < |samples|
    requires forall leaf :: 0 <= leaf < |safe| ==> (safe[leaf] <==> SafeLeaf(s, samples, leaf, minObs, minPure))
    ensures Answer(s, safe, samples[i].query) == Searched(s, samples[i])
  {
    hide SearchScore;
    SafeAnswers(s, samples, safe, minObs, minPure, i);
  }

  lemma ServerAgreesOnSamples(s: Setup, samples: seq<Sample>, safe: seq<bool>, minObs: nat, minPure: nat)
    requires s.Valid() && Samples(samples) && |safe| == |s.leaves|
    requires forall leaf :: 0 <= leaf < |safe| ==> (safe[leaf] <==> SafeLeaf(s, samples, leaf, minObs, minPure))
    ensures forall i :: 0 <= i < |samples| ==> Answer(s, safe, samples[i].query) == Searched(s, samples[i])
  {
    hide SafeLeaf, Answer, Searched;
    forall i | 0 <= i < |samples| ensures Answer(s, safe, samples[i].query) == Searched(s, samples[i]) {
      AgreesOnSample(s, samples, safe, minObs, minPure, i);
    }
  }

  /** No answer exceeds five, and none that does not is changed. */
  lemma ClampIs(x: int)
    ensures Clamp(x) <= 5 && (x <= 5 ==> Clamp(x) == x) && (x >= 5 ==> Clamp(x) == 5)
  {}

  /** A leaf is admitted on enough samples, or on fewer where it was pure in training. */
  lemma EnoughIs(count: nat, purity: nat, minObs: nat, minPure: nat)
    ensures !Enough(count, purity, minObs, minPure) <==> count < minObs && (purity != 1000 || count < minPure)
  {}
}
