/** From the input vectors to the file and back: what the reader gets is a well-formed index of the input. */
module Pipeline {
  import opened Sequences
  import opened Geometry
  import opened BlockLayout
  import opened TopFive
  import opened SeenMask
  import opened Index
  import opened Builder
  import opened EndToEnd
  import opened IndexFile
  import opened Machine
  import opened SearchSpec
  import opened Exactness
  import opened BruteForce
  import Search

  function One(): Item -> int { (x: Item) => 1 }

  function Blanks(n: nat): seq<Item> { seq(n, _ => SENTINEL) }

  lemma {:induction false} SumOfOnes(arr: seq<nat>, n: nat)
    requires Indices(arr, n)
    ensures SumOver(arr, Blanks(n), One()) == |arr|
  {
    if arr != [] { SumOfOnes(arr[..|arr| - 1], n); }
  }

  lemma {:induction false} TotalOfOnes(xs: seq<Item>)
    ensures Total(xs, One()) == |xs|
  {
    if xs != [] { TotalOfOnes(xs[..|xs| - 1]); }
  }

  /** Blocks never outnumber the vectors dealt so far. */
  lemma {:induction false} OffsetsBounded(assign: seq<nat>, counts: seq<nat>, offsets: seq<nat>, c: nat)
    requires OffsetsOk(offsets, counts) && c <= |counts|
    requires forall d :: 0 <= d < |counts| ==> counts[d] == |Members(assign, d, |assign|)|
    ensures offsets[c] <= SumBelow(assign, |assign|, c, Blanks(|assign|), One())
  {
    if c > 0 {
      OffsetsBounded(assign, counts, offsets, c - 1);
      MembersBelow(assign, c - 1, |assign|);
      SumOfOnes(Members(assign, c - 1, |assign|), |assign|);
      assert CeilDiv8(counts[c - 1]) <= counts[c - 1];
    }
  }

  lemma BlocksAtMostVectors(ix: Index, assign: seq<nat>)
    requires Shape(ix)
    requires forall i :: 0 <= i < |assign| ==> assign[i] < ix.k
    requires forall d :: 0 <= d < ix.k ==> ix.counts[d] == |Members(assign, d, |assign|)|
    ensures forall c :: 0 <= c <= ix.k ==> ix.offsets[c] <= |assign|
    ensures forall c :: 0 <= c < ix.k ==> ix.counts[c] <= |assign|
  {
    var xs := Blanks(|assign|);
    OffsetsBounded(assign, ix.counts, ix.offsets, ix.k);
    DealtOut(assign, |assign|, ix.k, xs, One());
    assert xs[..|assign|] == xs;
    TotalOfOnes(xs);
    forall c | 0 <= c <= ix.k ensures ix.offsets[c] <= |assign| {
      OffsetsMonotone(ix.offsets, ix.counts, c, ix.k);
    }
    forall c | 0 <= c < ix.k ensures ix.counts[c] <= |assign| {
      MemberCount(assign, c, |assign|);
    }
  }

  lemma {:induction false} MemberCount(assign: seq<nat>, c: nat, n: nat)
    requires n <= |assign|
    ensures |Members(assign, c, n)| <= n
  {
    if n > 0 { MemberCount(assign, c, n - 1); }
  }

  lemma BuiltFits(ix: Index, k: nat, centers: seq<seq<int>>, vecs: seq<seq<int>>, labels: seq<int>,
                  assign: seq<nat>, order: seq<seq<nat>>)
    requires WF(ix) && ix.k == k && Input(k, vecs, labels, assign, order) && Stores(ix, centers, vecs, labels, order)
    requires ix.n == |vecs| < 0x1_0000_0000 && ix.nBlocks == ix.offsets[k] && I16s(ix.boxMin) && I16s(ix.boxMax)
    ensures Writable(ix)
  {
    hide BoxOk, StoresAt, VectorAt, Members;
    forall d | 0 <= d < k ensures ix.counts[d] == |Members(assign, d, |assign|)| {
      OrderOk(k, vecs, labels, assign, order, d);
    }
    BlocksAtMostVectors(ix, assign);
  }

  /**
   * The builder's program: pack, then write. A reader of the file gets the index back, so the search runs on a
   * well-formed index of exactly the input.
   */
  method BuildFile(k: nat, centers: seq<seq<int>>, vecs: seq<seq<int>>, labels: seq<int>,
                   assign: seq<nat>, distance: (nat, nat) -> real, scale: int)
    returns (ix: Index, order: seq<seq<nat>>, file: seq<int>)
    requires k <= MAX_K && Given(k, vecs, labels, assign) && |centers| == k && Vectors(centers)
    requires |vecs| < 0x1_0000_0000 && 0 <= scale < 0x1_0000_0000
    ensures Input(k, vecs, labels, assign, order) && NearestFirst(order, distance)
    ensures WF(ix) && ix.k == k && Stores(ix, centers, vecs, labels, order)
    ensures file == FileBytes(ix, scale) && Bytes(file) && HoldsFile(file, ix, scale)
  {
    ix, order := Build(k, centers, vecs, labels, assign, distance);
    BuiltFits(ix, k, centers, vecs, labels, assign, order);
    file := WriteFile(ix, scale);
    FileIsBytes(ix, scale);
  }

  /**
   * From end to end: build, write the file, open it and score a query. The reader gets the index back, and the search
   * keeps the five smallest distances of the input if and only if its guard holds, and then scores the input.
   */
  method BuildOpenScore(build: Search.Build, k: nat, centers: seq<seq<int>>, vecs: seq<seq<int>>, labels: seq<int>,
                        assign: seq<nat>, distance: (nat, nat) -> real, scale: int, q: seq<int>)
    returns (ix: Index, order: seq<seq<nat>>, r: OpenResult, frauds: int)
    requires k <= MAX_K && Given(k, vecs, labels, assign) && |centers| == k && Vectors(centers)
    requires |vecs| < 0x1_0000_0000 && 0 <= scale < 0x1_0000_0000 && Query(q)
    ensures Input(k, vecs, labels, assign, order) && NearestFirst(order, distance)
    ensures r == Opened(ix) && WF(ix) && Stores(ix, centers, vecs, labels, order)
    ensures frauds == Frauds(Run(ix, q).state.best)
    ensures InIndex(ix, ProbesOf(ix, q))
    ensures DistancesOfInput(vecs, labels, q, Run(ix, q).state.best) <==> Guard(ix, q, ProbesOf(ix, q))
    ensures Guard(ix, q, ProbesOf(ix, q)) ==> ScoreOfInput(vecs, labels, q, frauds)
  {
    hide WF, Stores, Run, Guard, NearestFirst, InIndex, HoldsFile, FileBytes, Bytes, Scan, Frauds, DistancesOfInput,
         ScoreOfInput;
    var file;
    ix, order, file := BuildFile(k, centers, vecs, labels, assign, distance, scale);
    r := Open(file);
    frauds := Search.ScoreQ(build, r.index, q);
    AnswerForInput(ix, q, centers, vecs, labels, assign, order);
  }
}
