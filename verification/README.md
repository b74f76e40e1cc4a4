# Verified model of the fraud-score service

The service answers one question per request: of the five stored transactions nearest to this one, how many are
fraud? This project models the parts of it that have to be right for that answer to be right, and proves them
with Dafny 4.11. `dafny verify dfyconfig.toml` checks all of it.

## What is modelled

**Exact search.** The builder packs quantised vectors into blocks of eight lanes, clusters them and keeps a
bounding box per cluster (`Builder`, `BlockLayout`). The reader picks 33 clusters with a bounded heap (`Probes`,
`ProbeHeap`), scans the nearest with partial-sum pruning (`Kernels`, `Avx2`, `Scoreboard`, `TopFive`) and repairs
the answer over the other probes and then over everything else, skipping clusters by their boxes and a bitset
(`SeenMask`, `Search`). `SearchSpec` is the search as a function, `Exactness` what every run of it keeps, and
`BruteForce` compares it with a plain scan of all stored vectors. `Index.WF` says what a well-formed index is;
`Builder.Build` establishes it, `Search.ScoreQ` needs nothing else, and `IndexFile`, `Pipeline` and `EndToEnd` carry
it through the file to the vectors that went in; `Pipeline.BuildOpenScore` is the whole way.

**The request stream.** `Http` parses one request, `HttpRoundTrip` reads back requests written with any header lines,
`Respond` finds their answers, `Connection` holds both connection loops over the 8192-byte buffer, and `Handoff` the
balancer's peek and the message with which it passes on the bytes it has already read. Whatever the cuts between
reads, what is answered is one greedy parse of the whole stream, up to the first request on which the program stops.

**The rest of the path.** `Calendar` (day number and day of week against the Gregorian rules), `Tree` and
`Calibration` (the decision-tree shortcut and the choice of the leaves where it may answer), `Quantisation` (the
codes), `JsonSpec`, `Json`, `JsonRoundTrip`, `JsonFaults` and `JsonEncode` (the payload reader), and `Lloyd` (the
clustering iterations over exact reals).

Loops and in-place updates of the source are methods with loops on arrays or class fields; each is proved against a
function, and the theorems are lemmas about these functions. Machine integers are unbounded integers with the wrap
written out (`Machine`). `Sequences` holds facts about sequences and multisets that several modules share.

## Where the code and its promises part

- The repository's own README speaks of `nprobe=2`; the code has one initial probe, and so does the model.
- The search is not always exact: a run may leave early, and after an early break of the repair over probes the full
  repair takes every probe for seen. `CutMisses.CutCanMiss` is an index and a query where the answer is 0 and the five
  nearest are all fraud, for every index of that input however many empty clusters it has, and
  `CutMisses.BuiltIndexMisses` builds and searches one. `BruteForce.UncutIff` says, from the index and the query
  alone, when a run goes through both repairs uncut, and `BruteForce.ExactIffGuard` when the distances are exact on
  any run at all: a run that leaves early must have nothing nearer elsewhere, and one that was cut nothing nearer in
  the probes after the cut. The score is then exact too, short of a tie across the fifth place
  (`BruteForce.ExactCountWithoutTie`).
- A declared content length is accumulated in 64 bits, and so is the end of the body; both wrap. A request is read as
  its header means it unless that end overflows and comes back inside the buffer, and the program stops, which the
  model keeps as the outcome `Crash`, exactly when it comes back before the body (`Http.PostExactIff`).
  `HttpRoundTrip.NinesCrash` is such a request: nineteen nines.
- Answering can stop the program as well, and with it every other connection. A scoring request whose payload is
  readable but whose time is shorter than a stamp, or names no month, indexes the month table outside its bounds.
  `Respond.StopsIff` says exactly when; the body `{}` is enough, in a request of 41 bytes
  (`Connection.EmptyPostStops`).
- The balancer may read up to 16384 bytes ahead, but the worker's buffer holds 8192 and a longer prefix closes the
  connection unanswered; and a stream that shows `GET /ready` to the balancer's peek gets one answer from the balancer
  and is closed, whether the request is whole or others follow. `Handoff.Serve` gives the answers a stream asks for if
  and only if `Handoff.ServedRight` holds: with the peek taken, the stream is one request alone; without, what the
  balancer had read fits, or there is nothing to answer. `Handoff.DroppedRequest` and `Handoff.SecondCheckDropped` are
  streams where it does not.
- The day of the week is summed in 32 bits. It agrees with the day number if and only if the sum fits
  (`Calendar.WeekdayAgreesIff`), which it does for every year within 1.7 thousand million and not on the first of
  March of the year two thousand million (`Calendar.WeekdayWrong`).
- A key the payload reader does not know is skipped by counting brackets of one shape, inside strings too. A nested
  value is skipped to its end if and only if its brackets close as counted (`JsonRoundTrip.SkipNestedIff`); an object
  that holds the string "}" is not, and a document with it is turned away (`JsonRoundTrip.BraceRejected`). There are no
  escapes: a text is read back if and only if it holds no quote (`JsonRoundTrip.QuotedIff`).
- The parts of a number are 64-bit integers. The number read is the number written if and only if they and the power
  of ten under the fraction fit (`JsonEncode.NumeralExactIff`); sixty-four digits after the point make that power zero
  (`JsonEncode.PowerVanishes`).

## Modelling decisions

- The position of every stored vector (`Item.slot`) is part of the specification only; the arrays hold distances and
  labels. The two builds of the program are one `Build` value; both meet one contract.
- Centres, the assignment of vectors to clusters and the distances of vectors to centres are inputs of the builder.
  The library sort leaves vectors at equal distance in any order; the model's keeps them as they were, and what is
  proved from the packing on (`Builder.PackAll`, `EndToEnd`) holds for any order. The builder's per-cluster cursors are
  locals of the packing of one cluster. Box rows are laid end to end in the file (`Flatten`).
- The operating system is a sequence of `Event`s: a read hands over some bytes, is interrupted, or fails; running out
  of events is the loop waiting, or the balancer's read finding nothing ready. `writable` is the number of responses
  the peer takes before a write fails, and `visible` the number of bytes there when the balancer peeks. The message
  from the balancer reaches the worker.
- The loops are compared on the requests they answer, in order, and on how the stream ends (`Connection.FateOf`). The
  answer to a scored payload is left at the payload and its weekday; `Calibration.AnswerQuery` takes over from the
  quantised query.
- The five object readers of the payload run the same loop over different keys; they are one method with a table of
  keys (`JsonSpec.Lookup`). A number keeps its sign and its 64-bit integer parts; the last division to a float is not
  taken, and a text with an exponent is kept as it is, `accepts` saying which of those the float library takes.
- The tree and its leaf data are parameters of the calibration; nothing depends on the generated tables.

## Model

| member | source | states |
|---|---|---|
| `Geometry.BoxBoundSound` | internal/knn/knn.go:296-314 | the box bound never exceeds the squared distance to any vector inside the box |
| `Geometry.BoxBoundTight` | internal/knn/knn.go:296-314 | the bound is attained by a point of the box, so no larger bound is sound |
| `Geometry.DistIs` | internal/knn/knn_other.go:13-39 | a query is at distance 0 from itself, and moving any one of the sixteen coordinates of a vector by one changes the squared distance by twice the difference plus one, however far it is |
| `Machine.WrapsAre` | internal/knn/knn_other.go:19-33 | a wrapped value is the one of its width, 16, 32 or 64 bits with sign, that differs by a multiple of the range |
| `Machine.TruncIs` | internal/timex/timex.go:26-67 | quotient and remainder toward zero make up the dividend, whose sign the remainder takes |
| `BlockLayout.AddressInverse` | cmd/buildindex/main.go:160-168 | slot and dimension can be read back from an address, and the address lies in the slot's block |
| `BlockLayout.AddressOnto` | cmd/buildindex/main.go:160-168 | every address belongs to exactly one slot and dimension |
| `Kernels.PairTermExact` | internal/knn/knn_other.go:19-33 | on codes within 10000 the 32- and 64-bit arithmetic of one pair is exact |
| `Kernels.BlkDist` | internal/knn/knn_other.go:13-39 | returns the true squared distances of all eight lanes |
| `Kernels.BlkDistPrune` | internal/knn/knn_other.go:41-80 | reports pruned exactly when all lanes reach the threshold at a checkpoint, and otherwise the true distances |
| `Kernels.PrunedBlockIsFar` | internal/knn/knn_other.go:41-80 | every lane of a pruned block is at or above the threshold over all dimensions |
| `Avx2.NarrowTerm` | internal/knn/knn_amd64.s:12-124 | 16-bit subtraction and 32-bit multiply-add equal the portable term |
| `Avx2.CheckpointExact` | internal/knn/knn_amd64.s:128-276 | the lane masks of compare and or, tested, show a lane under the threshold exactly when there is one |
| `Avx2.BlkDistAvx2` | internal/knn/knn_amd64.s:12-124 | the vector kernel returns the distances of the portable one |
| `Avx2.BlkDistPruneAvx2` | internal/knn/knn_amd64.s:128-276 | the pruning vector kernel agrees with the portable one in distances and in the prune flag |
| `Avx2.BboxLowerBoundAvx2` | internal/knn/knn_amd64.s:282-311 | the vector box bound equals the integer one on boxes within 10000 |
| `Quantisation.Quantize` | internal/knn/knn.go:34-46 | fourteen codes and two zeros, a query for the search whatever the values |
| `Quantisation.CodeKeepsOrder` | internal/knn/knn.go:34-53 | codes stay within ten thousand, keep the order of the values and are odd in them |
| `Quantisation.CodeIsNear` | internal/knn/knn.go:34-53 | a value between -1 and 1 is off by at most half a code, and one outside has the code of the nearer end |
| `Quantisation.EveryCode` | internal/knn/knn.go:34-53 | every code within ten thousand is that of some value |
| `TopFive.ScanSorted` | internal/knn/knn.go:281-293 | the five stay ascending and the fifth distance only falls |
| `TopFive.ScanFar` | internal/knn/knn.go:281-293 | items at or above the fifth distance change nothing |
| `TopFive.StableSortSorted` | internal/knn/knn.go:281-293 | the reference sort is an ascending permutation |
| `TopFive.StableSortStable` | internal/knn/knn.go:281-293 | the reference sort keeps the order of items at equal distance |
| `TopFive.ScanIsFirstFive` | internal/knn/knn.go:281-293 | folding insertions over any sequence gives the first five of its stable sort, padded with sentinels |
| `TopFive.ScanIsNearest` | internal/knn/knn.go:281-293 | the fold keeps min(5, n) of the items and none farther than any item left over |
| `TopFive.ScanDistancesPermuted` | internal/knn/knn.go:281-293 | the five distances depend only on which items were scanned, not on the order |
| `TopFive.NearestUnique` | internal/knn/knn.go:281-293 | with no tie across the fifth place the five items and their fraud count are determined |
| `TopFive.MoreIsTheSameIff` | internal/knn/knn.go:281-293 | scanning more leaves the five distances alone if and only if nothing new beats the fifth |
| `TopFive.FraudsOfFive` | internal/knn/knn.go:103-106 | where exactly five items are nearer than some distance, the fraud count of the five is a count over all items |
| `TopFive.FraudsOfPart` | internal/knn/knn.go:103-106 | the same for five scanned from a part of the items, at the fifth distance of all |
| `Scoreboard.Best.InsertBest` | internal/knn/knn.go:281-293 | the in-place shift and write is one insertion into the five |
| `Scoreboard.Best.CountFrauds` | internal/knn/knn.go:103-106 | counts the frauds among the five |
| `ProbeHeap.SiftUpHeap` | internal/knn/knn.go:239-250 | sifting up restores the heap from one entry that may exceed its parent |
| `ProbeHeap.SiftDownHeap` | internal/knn/knn.go:252-270 | sifting down restores the heap from one entry that may be under its children |
| `ProbeHeap.SelectKeepsNearest` | internal/knn/knn.go:225-237 | after any sequence of offers the heap holds a set of its 33 smallest distances; kept and dropped make up the sequence |
| `ProbeHeap.HeapSortAscends` | internal/knn/knn.go:272-279 | the heap sort turns a heap into an ascending list |
| `ProbeHeap.NearestIsSorted` | internal/knn/knn.go:225-279 | selecting and sorting gives an ascending list of a set of the 33 smallest |
| `ProbeHeap.SiftsStay` | internal/knn/knn.go:239-270 | an entry not above its parent, or not under its children, stays where it is: ties move nothing |
| `ProbeHeap.FullHeapTurnsAway` | internal/knn/knn.go:225-237 | up to thirty-three probes are all kept; then one no nearer than the farthest changes nothing and a nearer one is kept |
| `Probes.HeapSiftUp` | internal/knn/knn.go:239-250 | the in-place loop is the sift, and entries past the heap are untouched |
| `Probes.HeapSiftDown` | internal/knn/knn.go:252-270 | the in-place loop is the sift within the size, and entries past the heap are untouched |
| `Probes.ProbeList.Insert` | internal/knn/knn.go:225-237 | the array and count after an offer are the specified heap |
| `Probes.ProbeList.Sort` | internal/knn/knn.go:272-279 | the array after the sort is the specified list |
| `SeenMask.MarkProbes` | internal/knn/knn.go:130-140 | the bitset answers for exactly the clusters taken as probes, for every cluster below 4096 |
| `Index.SlotsDistinct` | internal/index/index.go:103-143 | different vectors of a well-shaped index are in different slots |
| `Index.QueryIs` | internal/knn/knn.go:34-46 | any sixteen codes within ten thousand are a query |
| `Index.CeilDiv8Is` | cmd/buildindex/main.go:95-105 | the block count of a cluster is the least whose blocks of eight hold its vectors |
| `Index.BoundIsNearest` | internal/knn/knn.go:296-314 | the bound of a nonempty cluster is the distance to the nearest point of its box |
| `Index.BoundSound` | internal/knn/knn.go:296-314 | the box bound of a cluster is at most the distance to any vector stored there |
| `Index.BoxPruneSound` | internal/knn/knn.go:158-171 | scanning a cluster whose bound does not beat the fifth distance would change nothing |
| `SearchSpec.ProbesProper` | internal/knn/knn.go:64-87 | the probes are distinct nonempty clusters, ascending, a set of the 33 nearest centroids |
| `Search.BboxLowerBound` | internal/knn/knn.go:296-314 | on 16-bit values the 32- and 64-bit arithmetic does not wrap and computes the box bound |
| `Search.ScanCluster` | internal/knn/knn.go:181-223 | the pruned block scan leaves the same five as a scan of exactly the stored vectors one by one |
| `Search.SelectProbes` | internal/knn/knn.go:64-87 | the heap after all centroid blocks, sorted, is the specified probe list |
| `Search.RepairFast` | internal/knn/knn.go:158-179 | refines the repair over probes, early break included; `BruteForce.CutInNumbers` says in numbers when it breaks |
| `Search.RepairFull` | internal/knn/knn.go:129-156 | refines the repair over every nonempty cluster not taken as a probe |
| `Search.ScoreQ` | internal/knn/knn.go:63-127 | the whole search on either build returns the fraud count of the specified run |
| `Exactness.StepSound` | internal/knn/knn.go:158-223 | covering a new cluster, by scan or prune, keeps the five those of the clusters covered |
| `Exactness.FastCovers` | internal/knn/knn.go:158-179 | from any point the repair over probes stays sound, covers the probes up to the first that meets the guard of the early break, and is cut if and only if there is one |
| `Exactness.FullCovers` | internal/knn/knn.go:129-156 | from any point the full repair stays sound and covers exactly the remaining clusters not taken, once each |
| `Exactness.EveryRun` | internal/knn/knn.go:63-179 | on every run, early exits included, the five are those of the clusters covered, none twice; where it leaves, what it covers and whether it is cut are told from the index and the query |
| `Exactness.StopsAtFirstCut` | internal/knn/knn.go:169-177 | the probes covered reach to the first that meets the guard, or to the last |
| `BruteForce.CutInNumbers` | internal/knn/knn.go:158-179 | a probe ends the repair if and only if its box beats the fifth distance and its scan leaves no fraud or five frauds and a fifth distance of at most 14000000 |
| `BruteForce.RunInNumbers` | internal/knn/knn.go:63-179 | a run leaves after the first probe if and only if that leaves five frauds within 14000000; otherwise it covers the probes up to the first that breaks and is cut if and only if one does, and goes on to every other nonempty cluster unless all five are frauds |
| `BruteForce.MixedIsUncut` | internal/knn/knn.go:103-179 | a run whose fives hold one to four frauds after every probe is never cut, at any distance, and goes through both repairs |
| `BruteForce.ProbeCount` | internal/knn/knn.go:64-87 | as many clusters are probed as are nonempty, at most thirty-three |
| `BruteForce.ProbesAreNearest` | internal/knn/knn.go:64-87 | no nonempty cluster that is not among the first probes has a nearer centroid than they have |
| `BruteForce.ExactWhenUncut` | internal/knn/knn.go:63-179 | an uncut run through the full repair covers every nonempty cluster once and keeps distinct stored vectors, nearest of all, at the distances of a plain scan |
| `BruteForce.FarIsUncut` | internal/knn/knn.go:103-127 | when no stored vector lies within the early distance no run is cut, so every score below five comes from an exact run |
| `BruteForce.ExactFraudsBelow` | internal/knn/knn.go:63-179 | an exact run, however it left, scores the frauds among the five vectors nearer than any distance that bounds exactly five |
| `BruteForce.ExactCountWithoutTie` | internal/knn/knn.go:63-179 | with no tie across the fifth place the score of an exact run is that of the plain scan |
| `BruteForce.UncutIff` | internal/knn/knn.go:95-179 | a run is uncut and goes through the full repair if and only if its first probe is not five tight frauds, no later probe meets the guard, and all probes together leave at most four frauds |
| `BruteForce.ExactIffGuard` | internal/knn/knn.go:95-179 | on any run the distances are those of a plain scan if and only if the clusters its guard says it misses hold nothing nearer than the fifth of the others |
| `BruteForce.SoundExactIff` | internal/knn/knn.go:129-179 | five that are those of some clusters are the five of all if and only if the other clusters hold nothing nearer |
| `BruteForce.EarlyExitCertificate` | internal/knn/knn.go:103-127 | a score returned without the full repair is five: five distinct stored frauds, within the early distance unless every probe was covered |
| `CutMisses.CutCanMiss` | internal/knn/knn.go:129-179 | on every well-formed index of that input, with any number of empty clusters, a cut run answers 0 and the five nearest are all fraud |
| `CutMisses.BuiltIndexMisses` | internal/knn/knn.go:63-179 | built with 3 to 4096 clusters and searched by either build, the answer is 0 and should be 5 |
| `CutMisses.NearestCenter` | cmd/buildindex/main.go:281-292 | each vector of that input is nearer to its own center than to any other, as the builder assigns it |
| `Builder.CountAndList` | cmd/buildindex/main.go:84-92 | counts and member lists per cluster, in input order |
| `Builder.SortByKey` | cmd/buildindex/main.go:127-132 | an ascending permutation by a key |
| `Builder.SortLists` | cmd/buildindex/main.go:127-132 | every member list becomes an ascending permutation of itself by distance to its center |
| `Builder.BlockOffsets` | cmd/buildindex/main.go:95-105 | offsets are the running sums of the clusters' block counts |
| `Builder.PackVector` | cmd/buildindex/main.go:160-167 | the slot then holds the vector and every other slot is unchanged |
| `Builder.BoxEncloses` | cmd/buildindex/main.go:107-159 | the accumulated box encloses every vector of its cluster and each side touches one |
| `Builder.BoxBounded` | cmd/buildindex/main.go:107-159 | the box of a nonempty cluster stays within the code range |
| `Builder.PackCluster` | cmd/buildindex/main.go:139-175 | a cluster's vectors and labels fill consecutive slots from its offset, nothing else changes, and the box is theirs |
| `Builder.PackAll` | cmd/buildindex/main.go:134-175 | every cluster is in place with its labels and its box |
| `Builder.PackCentroids` | cmd/buildindex/main.go:177-198 | centroid i is stored in slot i |
| `Builder.Build` | cmd/buildindex/main.go:84-198 | for every input, assignment and distances the index is well formed and stores each vector with its label in its cluster, nearest to the center first |
| `EndToEnd.Conserved` | cmd/buildindex/main.go:84-175 | any sum over vectors that ignores slots is the same on the index as on the input |
| `EndToEnd.StoredDistances` | cmd/buildindex/main.go:84-175 | a plain scan of the index finds the five smallest distances of the input |
| `EndToEnd.AnswerForInput` | internal/knn/knn.go:63-179 | a search on a built index keeps the five smallest distances of the input if and only if its guard holds, and then scores the input |
| `IndexFile.WriteI16` | cmd/buildindex/main.go:247-254 | the buffer holds the little-endian 16-bit encoding |
| `IndexFile.WriteU32` | cmd/buildindex/main.go:256-263 | the buffer holds the little-endian 32-bit encoding |
| `IndexFile.WriteFile` | cmd/buildindex/main.go:205-243 | the file is the header and the seven sections in order |
| `IndexFile.SectionsMeet` | internal/index/index.go:103-143 | every section starts where the reader's cursor looks for it |
| `IndexFile.FileRoundTrip` | internal/index/index.go:103-143 | reading the sections back gives the same index field by field |
| `IndexFile.OpensAsWritten` | internal/index/index.go:103-165 | data that holds the file of an index has a good header and opens as that index |
| `IndexFile.FileIsBytes` | cmd/buildindex/main.go:205-263 | the file is a sequence of bytes |
| `IndexFile.BytesOrder` | cmd/buildindex/main.go:247-263 | numbers are written low byte first, negative ones in two's complement |
| `IndexFile.HeaderIs` | cmd/buildindex/main.go:205-215 | the header is the magic number, version 4, the numbers of clusters, vectors and blocks, the scale, and zeros up to byte 64 |
| `IndexFile.SectionStarts` | internal/index/index.go:103-143 | the byte at which each section starts, for any number of full centroid blocks and of vector blocks |
| `IndexFile.Open` | internal/index/index.go:65-165 | each error exactly on its condition, and any file that holds an index opens as that index |
| `Pipeline.BuildFile` | cmd/buildindex/main.go:84-243 | the file written is the bytes of a well-formed index of the input |
| `Pipeline.BuildOpenScore` | cmd/buildindex/main.go:84-243 | build, write, open and score: the reader gets the index back, and the search keeps the distances of the input if and only if its guard holds, and then scores it |
| `Http.AsciiEqlIgnoreCase` | internal/server/http.go:114-132 | the same length and, byte by byte, the same or a capital from A to Z and its small letter |
| `Http.FindContentLength` | internal/server/http.go:81-112 | the length declared by the first line whose first fifteen bytes are the name in any case, if any; `HttpRoundTrip.PostHeader` and `NoLengthIsBad` say it of written headers |
| `Http.ParseRequest` | internal/server/http.go:47-79 | refines the parse function, with its incomplete, bad and crash cases |
| `Http.LengthExactIff` | internal/server/http.go:98-109 | the accumulated value of the digits is the written one if and only if that fits 64 bits |
| `Http.DeclaredIsWrapped` | internal/server/http.go:81-112 | the length declared by a header is the written one modulo the range of 64 bits |
| `Http.PostExactIff` | internal/server/http.go:51-66 | a scoring request is read as its header means it if and only if its end does not overflow and come back inside the buffer, and stops the program if and only if that end comes before the body |
| `Http.ParseExactIff` | internal/server/http.go:47-79 | the same for every buffer: nothing else is read wrongly |
| `HttpRoundTrip.PostHeader` | internal/server/http.go:51-60 | in a request written with any header lines, the name of the length in any case, blanks before its digits and anything after them, where the header ends and what it declares |
| `HttpRoundTrip.PostRoundTrip` | internal/server/http.go:47-79 | such a request that declares the length of its body is read back, whatever follows |
| `HttpRoundTrip.ShortBody` | internal/server/http.go:60-64 | as long as less than the declared length has arrived it is incomplete |
| `HttpRoundTrip.BodyRoundTrip` | internal/server/http.go:47-79 | every body has a request that is read back to it |
| `HttpRoundTrip.EndsAtEmptyLine` | internal/server/http.go:47-79 | nothing is read before the bytes 13, 10, 13, 10, and a request that is not to be scored ends behind the first of them |
| `HttpRoundTrip.NoLengthIsBad` | internal/server/http.go:51-59 | a scoring request none of whose lines declares a length is bad |
| `HttpRoundTrip.NinesCrash` | internal/server/http.go:51-66 | a request that declares nineteen nines stops the program |
| `Http.ParseStable` | internal/server/http.go:47-79 | an answer other than incomplete does not change when more bytes arrive |
| `Http.ParseWindow` | internal/server/http.go:47-79 | a request is found in any window that holds it and is long enough to be looked at |
| `Respond.StampRoundTrip` | internal/timex/timex.go:12-24 | a valid stamp of the years 0 to 9999 is read back from its text |
| `Respond.RespondTo` | internal/server/http.go:134-143 | the branch a request takes, or that the program stops; `Respond.AnswerFromBytes` tells it from the bytes |
| `Respond.AnswerFromBytes` | internal/server/http.go:47-143 | a whole request is answered ready if and only if it opens with `GET /ready`, not found if and only if with neither prefix, unreadable if and only if it opens with `POST /fraud-score` and its payload is malformed, and scored with its payload if and only if that is readable and dated |
| `Respond.ShortIsIncomplete` | internal/server/http.go:47-50 | fewer than sixteen bytes are never looked at |
| `Respond.StopsIff` | internal/server/http.go:134-143 | answering stops the program if and only if the request is to be scored, its payload is readable, and its time is shorter than a stamp or names no month |
| `Respond.StampedIsScored` | internal/normalize/normalize.go:69-72 | a payload with a written valid stamp is scored, with the weekday of the day number |
| `Respond.EmptyObjectStops` | internal/timex/timex.go:26-32 | the body of an empty object stops the program |
| `Connection.GreedyPipelines` | cmd/api/conn_linux.go:36-54 | whole requests sent back to back are recognised one by one, whatever follows |
| `Connection.DrainConserves` | cmd/api/conn_linux.go:36-54 | draining a buffer yields the front of the stream's answered requests and its fate, or leaves the rest of the stream in order |
| `Connection.FullIsStuck` | cmd/api/conn_linux.go:55-57 | a full buffer without a whole request never yields one |
| `Connection.AnsweredIffItFits` | cmd/api/conn_linux.go:36-57 | a whole request with an answer gets it if and only if it takes at most 8192 bytes |
| `Connection.NoLengthIsRefused` | cmd/api/conn_linux.go:36-47 | a scoring request without a length is turned away and the program goes on |
| `Connection.Buffer.Compact` | cmd/api/conn_linux.go:48-53 | the in-place move removes exactly the request's bytes |
| `Connection.DrainBuffer` | cmd/api/conn_linux.go:36-54 | answers the buffer's requests in order until one is incomplete, bad or stops the program, or a write fails |
| `Connection.HandleRawConn` | cmd/api/conn_linux.go:17-70 | for every prefix, stream and cut into reads the answers are an initial part of one greedy parse, all of it when the connection ends by itself, which it does as the stream's fate says: closed, turned away or the program stopped; while waiting, all that the bytes read so far ask for |
| `Connection.HandleConn` | cmd/api/main.go:123-164 | the same for the loop that reads first |
| `Connection.EmptyPostStops` | cmd/api/conn_linux.go:36-47 | a request of 41 bytes with the body `{}` gets no answer and stops the program, whatever follows |
| `Handoff.DecodeIff` | cmd/api/ctrl_linux.go:96-106 | a message decodes to a prefix if and only if it is the encoding of that prefix, of at most 16384 bytes |
| `Handoff.MessageIs` | cmd/lb/main.go:198-204 | a message is the length of the prefix, low byte first, and the prefix |
| `Handoff.ReadReadyPrefix` | cmd/lb/main.go:171-193 | the number of bytes read is that of the reads, one by one, or -1 |
| `Handoff.GivesUpIff` | cmd/lb/main.go:171-193 | without errors it gives up if and only if the stream closed before its first byte |
| `Handoff.ErrorGivesUp` | cmd/lb/main.go:171-193 | an error while bytes and room are left makes it give up, whatever it has read and whatever follows |
| `Handoff.TakesAllReady` | cmd/lb/main.go:171-193 | it takes a full buffer, the whole stream, or at least a byte for every read |
| `Handoff.ReadsAtMost` | cmd/lb/main.go:148-193 | at most 16384 bytes are read ahead, and the peek needs ten |
| `Handoff.Serve` | cmd/lb/main.go:106-136 | from the peek to the worker's loop, a connection that runs its course gets the answers its stream asks for if and only if it is served right |
| `Handoff.HandleReadyPeek` | cmd/lb/main.go:148-166 | the balancer answers by itself if and only if at least ten bytes are visible and they open with the readiness check |
| `Handoff.BalancerAnswers` | cmd/lb/main.go:148-166 | its one answer is right if and only if the stream is that request alone |
| `Handoff.DroppedRequest` | cmd/api/conn_linux.go:27-33 | nine thousand ready bytes behind a whole request that the peek lets through: the prefix does not fit and the request goes unanswered |
| `Handoff.SecondCheckDropped` | cmd/lb/main.go:110-113 | two readiness checks back to back: the balancer answers one |
| `Calendar.SuccessorIsNext` | internal/timex/timex.go:45-67 | the next day of the Gregorian calendar has the next day number, in every year |
| `Calendar.DayNumberOrder` | internal/timex/timex.go:45-67 | day numbers are strictly increasing |
| `Calendar.EveryNumberIsADay` | internal/timex/timex.go:45-67 | every integer is the number of a valid date |
| `Calendar.EpochSecondsOrder` | internal/timex/timex.go:69-72 | seconds are strictly increasing on valid stamps |
| `Calendar.NextSecondIsNext` | internal/timex/timex.go:69-72 | the next second, with its carries into minute, hour and day, has the next number |
| `Calendar.EpochIsZero` | internal/timex/timex.go:69-72 | the first second of 1970 has the number 0 |
| `Calendar.WeekdayAgreesIff` | internal/timex/timex.go:26-43 | the weekday is day number plus three modulo seven if and only if the 32-bit sum does not overflow |
| `Calendar.WeekdayWrong` | internal/timex/timex.go:26-43 | on the first of March of the year two thousand million the weekday is wrong |
| `Calendar.OrdinaryYearsFit` | internal/timex/timex.go:26-43 | the sum fits for every year within 1.7 thousand million |
| `Tree.Predict` | internal/tree/tree.go:1648-1663 | the loop ends at the leaf of the walk, for any table whose children come later |
| `Tree.Stump` | internal/tree/tree.go:1648-1663 | at a split a query at or below the threshold goes left and any other right, and a leaf is numbered from its negative link |
| `Tree.Partition` | internal/tree/tree.go:1648-1663 | every query lies in exactly one leaf region, that of the leaf its walk reaches |
| `Calibration.Score` | cmd/calibrate/main.go:96-136 | the buckets record exactly the samples that reached each leaf, and the matrix is the baseline |
| `Calibration.BaselineCounts` | cmd/calibrate/main.go:106-120 | the four counters count the samples by two frauds or fewer against three or more and by the expectation: denials expected are true positives, approvals expected true negatives, unexpected denials false positives, unexpected approvals false negatives |
| `Calibration.EnoughIs` | cmd/calibrate/main.go:138-199 | a leaf with fewer samples than the bar is turned away unless its purity is 1000 and the lower bar is met |
| `Calibration.JudgeLeaf` | cmd/calibrate/main.go:138-199 | a leaf passes if and only if enough samples reached it and all got from the search the count it stores |
| `Calibration.Choose` | cmd/calibrate/main.go:138-199 | exactly the safe leaves are marked |
| `Calibration.Replay` | cmd/calibrate/main.go:255-289 | the replay's confusion matrix equals the baseline |
| `Calibration.Calibrate` | cmd/calibrate/main.go:96-289 | gives up if and only if the search itself disagrees with an expectation, never drifts, and the server with the chosen leaves answers every sample as the search of this index would |
| `Calibration.AnswerQuery` | internal/server/http.go:134-160 | the leaf's count where the leaf is safe, the search's frauds elsewhere, at most five |
| `Calibration.ClampIs` | internal/server/http.go:155-158 | no answer exceeds five, and none up to five is changed |
| `Json.Reader.SkipBlanks` | internal/jsonp/json.go:36-44 | the cursor moves forward past spaces, tabs and line breaks and no further |
| `Json.Reader.TakeStr` | internal/jsonp/json.go:85-101 | the text up to the next quote, or malformed |
| `Json.Reader.TakeU32` | internal/jsonp/json.go:116-133 | the digits in 32-bit arithmetic, or malformed when there are none |
| `Json.Reader.TakeF32` | internal/jsonp/json.go:135-192 | the longest run of number characters, its integer parts, or malformed |
| `Json.Convert` | internal/jsonp/json.go:165-191 | sign and integer parts in 64-bit arithmetic |
| `Json.Reader.Skip` | internal/jsonp/json.go:194-236 | the cursor ends where the skipped value ends |
| `Json.Reader.TakeKnown` | internal/jsonp/json.go:523-547 | the list's names, the first sixteen kept, or malformed |
| `Json.Reader.TakeMembers` | internal/jsonp/json.go:290-335 | the loop of the object readers ends, never moves back or past the end, and fills the fields of its keys |
| `Json.Reader.TakeObject` | internal/jsonp/json.go:476-521 | one object or, for the last transaction, null |
| `Json.ParsePayload` | internal/jsonp/json.go:238-288 | on every text it ends with the specified payload or malformed |
| `JsonRoundTrip.SkipBlanksAhead` | internal/jsonp/json.go:36-44 | any run of spaces, tabs, carriage returns and newlines before a text is skipped |
| `JsonRoundTrip.LeftAlone` | internal/jsonp/json.go:36-44 | a text that begins with none of the four is left alone |
| `JsonRoundTrip.ReadsNumber` | internal/jsonp/json.go:135-192 | a number text is read whole, with its own value, whatever delimiter follows |
| `JsonRoundTrip.ReadsInt` | internal/jsonp/json.go:116-133 | a numeral reads as its value modulo 2 to the 32 |
| `JsonRoundTrip.IntegersWrap` | internal/jsonp/json.go:116-133 | an integer is its value modulo 4294967296, each character counting as its byte less that of 0 |
| `JsonRoundTrip.ReadsEntries` | internal/jsonp/json.go:523-547 | a written list reads back as its first sixteen names |
| `JsonRoundTrip.SixteenNames` | internal/jsonp/json.go:523-547 | of a written list exactly the first sixteen names are kept |
| `JsonRoundTrip.SkipsExtra` | internal/jsonp/json.go:194-236 | string, scalar and nested values of unknown keys are skipped to their end when their brackets close as counted |
| `JsonRoundTrip.ScalarStops` | internal/jsonp/json.go:229-236 | a skipped scalar ends at the first comma or closing bracket of either shape |
| `JsonRoundTrip.SkipsPlain` | internal/jsonp/json.go:210-228 | an object or list without inner brackets of its own shape is skipped to its end |
| `JsonRoundTrip.CommaOptional` | internal/jsonp/json.go:238-288 | between members a comma is skipped, and its absence passed over |
| `JsonRoundTrip.SkipNestedIff` | internal/jsonp/json.go:210-228 | a nested value is skipped to its end if and only if its brackets, counted in strings too, close there |
| `JsonRoundTrip.BraceInString` | internal/jsonp/json.go:210-228 | an object that holds a closing brace in a string is not |
| `JsonRoundTrip.BraceRejected` | internal/jsonp/json.go:238-288 | a well-formed document with such a value under an unknown key is malformed to the reader |
| `JsonRoundTrip.QuotedIff` | internal/jsonp/json.go:85-101 | a quoted text is read back if and only if it holds no quote |
| `JsonRoundTrip.ReadsMembers` | internal/jsonp/json.go:290-335 | any members in any order, with any blanks and extra keys, make exactly their writes |
| `JsonRoundTrip.DocumentRoundTrip` | internal/jsonp/json.go:238-288 | a document parses to a payload if and only if every field holds its last write or its default |
| `JsonRoundTrip.ParsesBack` | internal/jsonp/json.go:238-288 | every rendering of a payload parses back to it |
| `JsonRoundTrip.EmptyPayload` | internal/jsonp/json.go:238-288 | the payload of an empty object, field by field: zeros, empty texts, no flags, no last transaction |
| `JsonRoundTrip.TransactionFields` | internal/jsonp/json.go:290-335 | a document with one key of the transaction parses to the empty payload with the field of that name set, and no other |
| `JsonRoundTrip.CustomerFields` | internal/jsonp/json.go:337-380 | the same for the customer |
| `JsonRoundTrip.MerchantFields` | internal/jsonp/json.go:382-427 | the same for the merchant |
| `JsonRoundTrip.TerminalFields` | internal/jsonp/json.go:429-474 | the same for the terminal |
| `JsonRoundTrip.LastFields` | internal/jsonp/json.go:476-521 | the same for the last transaction, which is there as soon as its object is |
| `JsonFaults.ExpectIff` | internal/jsonp/json.go:36-53 | behind blanks, the character asked for is taken and any other is malformed |
| `JsonFaults.StringIff` | internal/jsonp/json.go:85-101 | a text is read if and only if it begins with a quote and holds another |
| `JsonFaults.FlagIff` | internal/jsonp/json.go:103-114 | a flag is read if and only if `true` or `false` stands there |
| `JsonFaults.IntegerIff` | internal/jsonp/json.go:116-133 | an integer is read if and only if a digit stands there |
| `JsonFaults.NumberIff` | internal/jsonp/json.go:135-192 | a number without exponent is a sign, digits and points, up to the first other character, a second sign included; with none of these it is malformed |
| `JsonFaults.ExponentIff` | internal/jsonp/json.go:135-164 | behind an exponent the run goes on over signs, and the float library decides on all of it |
| `JsonFaults.ListRejected` | internal/jsonp/json.go:523-547 | a list is malformed when, after any names, neither a name nor its end follows |
| `JsonFaults.FaultRejected` | internal/jsonp/json.go:290-335 | whatever members come before it and however deep it is, a fault makes an object malformed: no key, no colon, a value of the wrong kind, no object for a section, or the text ending |
| `JsonFaults.FaultyDocument` | internal/jsonp/json.go:238-288 | a document with such a fault is malformed |
| `JsonFaults.NoDocument` | internal/jsonp/json.go:238-288 | a text that does not begin with an object is malformed |
| `JsonEncode.NumeralValue` | internal/jsonp/json.go:165-191 | any numeral has its own sign and the value of its parts modulo 2 to the 64 |
| `JsonEncode.NumeralExactIff` | internal/jsonp/json.go:165-191 | the number read is the number written if and only if its parts and the power under the fraction fit 64 bits |
| `JsonEncode.PowerVanishes` | internal/jsonp/json.go:177-187 | sixty-four digits after the point make the power zero |
| `JsonEncode.PlusSign` | internal/jsonp/json.go:165-191 | a plus sign changes nothing |
| `JsonEncode.ExponentReads` | internal/jsonp/json.go:135-164 | digits with an exponent of either letter and any sign are one text, which the float library takes or not |
| `JsonEncode.DecimalRoundTrip` | internal/jsonp/json.go:135-192 | a decimal whose parts fit 64 bits is read back from its numeral |
| `JsonEncode.EncodeRoundTrip` | internal/jsonp/json.go:238-547 | parsing undoes encoding, for every payload whose fields the reader can produce, exponents and a last transaction taken back included |
| `JsonEncode.ParsedIffEncodable` | internal/jsonp/json.go:238-547 | the payloads the parser can return are exactly those the encoder can write |
| `Lloyd.FindNearest` | cmd/buildindex/main.go:351-359 | the first of the nearest centers |
| `Lloyd.ApartIff` | cmd/buildindex/main.go:272-279 | two points of fourteen coordinates are at distance zero if and only if they are the same |
| `Lloyd.AssignAll` | cmd/buildindex/main.go:343-365 | counts and sums per center, and the error of the nearest assignment |
| `Lloyd.NearestIsCheapest` | cmd/buildindex/main.go:350-365 | no assignment costs less than the nearest one |
| `Lloyd.MeanIsCheapest` | cmd/buildindex/main.go:367-371 | the mean is the cheapest value of a coordinate |
| `Lloyd.UpdateCenters` | cmd/buildindex/main.go:366-375 | every center moves to the mean of its points or is reseeded at a sample point, and the charge does not rise |
| `Lloyd.Iterate` | cmd/buildindex/main.go:342-377 | the errors reported never rise from one iteration to the next, reseeding included |

## Left out

- Normalisation (`internal/normalize`) beyond the weekday: float32 arithmetic on a table of constants; the model starts
  from its fourteen values.
- `Quantisation.Quantize`: over exact reals, because the source's float32 product rounds.
- k-means++ seeding and the text parsing of `cmd/buildindex`: random choice and float text; centres, assignment and
  order inside clusters are arbitrary inputs.
- `Lloyd.Iterate`: over exact reals, because the source's float32 distances and float64 sums round.
- `Search.ScoreQ`: the queries and codes lie within 10000 and the index has at most 4096 clusters, as the
  builder makes them.
- `Pipeline.BuildFile`: fewer than 2 to the 32 input vectors, because counts and offsets are 32-bit in the source.
- Sockets, epoll, descriptor passing, mmap, pools, scheduler settings and logging: operating-system plumbing.
- `cmd/lb/lb.c` and the round-robin forwarding loop: the same protocol or easy members; a hand-over that no worker
  takes is not modelled.
- The response bytes: constant tables.
- The samples of the calibration as request texts: they are taken as quantised queries.
- The generated node, leaf and safety tables, `LeafSafeB` and the unused partition bitset: data.
- Diagnostics, audit and union output of `cmd/calibrate`, and `prefetchBlock`: no effect on results.
