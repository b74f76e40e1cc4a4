/** The index file: the sections the builder writes and the cursor with which the reader finds them again. */
module IndexFile {
  import opened Geometry
  import opened BlockLayout
  import opened Index

  const MAGIC: int := 0x52494E48
  const VERSION: int := 4
  const HEADER_SIZE: nat := 64
  const BLOCK_BYTES: nat := 256

  ghost predicate Bytes(s: seq<int>) { forall i :: 0 <= i < |s| ==> 0 <= s[i] < 256 }

  ghost predicate I16s(s: seq<int>) { forall i :: 0 <= i < |s| ==> -0x8000 <= s[i] < 0x8000 }

  ghost predicate U32s(s: seq<int>) { forall i :: 0 <= i < |s| ==> 0 <= s[i] < 0x1_0000_0000 }

  // ---- numbers ----

  /** The unsigned value of a 16-bit pattern. */
  function U16(v: int): int { if v < 0 then v + 0x1_0000 else v }

  /** Byte `b` of the little-endian form of `v`. */
  function ByteOf(v: int, b: nat): int
    requires b < 4
  {
    match b
    case 0 => v % 256
    case 1 => v / 256 % 256
    case 2 => v / 0x1_0000 % 256
    case 3 => v / 0x100_0000 % 256
  }

  function EncodeI16(vs: seq<int>): (r: seq<int>)
    ensures |r| == 2 * |vs|
  {
    seq(2 * |vs|, i requires 0 <= i < 2 * |vs| => ByteOf(U16(vs[i / 2]), i % 2))
  }

  function EncodeU32(vs: seq<int>): (r: seq<int>)
    ensures |r| == 4 * |vs|
  {
    seq(4 * |vs|, i requires 0 <= i < 4 * |vs| => ByteOf(vs[i / 4], i % 4))
  }

  function ReadI16(data: seq<int>, at: nat): int
    requires at + 2 <= |data|
  {
    var u := data[at] + 256 * data[at + 1];
    if u >= 0x8000 then u - 0x1_0000 else u
  }

  function ReadU32(data: seq<int>, at: nat): nat
    requires at + 4 <= |data| && Bytes(data)
  {
    data[at] + 256 * data[at + 1] + 0x1_0000 * data[at + 2] + 0x100_0000 * data[at + 3]
  }

  /** The slice of `n` 16-bit values the reader lays over the bytes at `at`. */
  function I16Slice(data: seq<int>, at: nat, n: nat): (r: seq<int>)
    requires at + 2 * n <= |data|
    ensures |r| == n
  {
    seq(n, i requires 0 <= i < n => ReadI16(data, at + 2 * i))
  }

  function U32Slice(data: seq<int>, at: nat, n: nat): (r: seq<nat>)
    requires at + 4 * n <= |data| && Bytes(data)
    ensures |r| == n
  {
    seq(n, i requires 0 <= i < n => ReadU32(data, at + 4 * i))
  }

  lemma FourBytes(v: int)
    requires 0 <= v < 0x1_0000_0000
    ensures ByteOf(v, 0) + 256 * ByteOf(v, 1) + 0x1_0000 * ByteOf(v, 2) + 0x100_0000 * ByteOf(v, 3) == v
  {
    var a, b := v / 256, v / 0x1_0000;
    assert v == a * 256 + v % 256;
    assert b == a / 256;
    assert v / 0x100_0000 == b / 256;
  }

  /** Bytes laid down at `at` in a longer stream. */
  ghost predicate At(data: seq<int>, at: nat, part: seq<int>) {
    at + |part| <= |data| && forall i :: 0 <= i < |part| ==> data[at + i] == part[i]
  }

  lemma I16RoundTrip(data: seq<int>, at: nat, vs: seq<int>)
    requires I16s(vs) && At(data, at, EncodeI16(vs))
    ensures I16Slice(data, at, |vs|) == vs
  {
    var part := EncodeI16(vs);
    forall i | 0 <= i < |vs| ensures ReadI16(data, at + 2 * i) == vs[i] {
      assert data[at + 2 * i] == part[2 * i] && data[at + (2 * i + 1)] == part[2 * i + 1];
      assert part[2 * i] == ByteOf(U16(vs[i]), 0) && part[2 * i + 1] == ByteOf(U16(vs[i]), 1);
      FourBytes(U16(vs[i]));
    }
  }

  lemma U32RoundTrip(data: seq<int>, at: nat, vs: seq<int>)
    requires U32s(vs) && At(data, at, EncodeU32(vs)) && Bytes(data)
    ensures U32Slice(data, at, |vs|) == vs
  {
    var part := EncodeU32(vs);
    forall i | 0 <= i < |vs| ensures ReadU32(data, at + 4 * i) == vs[i] {
      forall b | 0 <= b < 4 ensures data[at + (4 * i + b)] == ByteOf(vs[i], b) {
        assert data[at + (4 * i + b)] == part[4 * i + b];
        assert (4 * i + b) / 4 == i && (4 * i + b) % 4 == b;
      }
      assert data[at + (4 * i + 0)] == ByteOf(vs[i], 0) && data[at + (4 * i + 1)] == ByteOf(vs[i], 1);
      assert data[at + (4 * i + 2)] == ByteOf(vs[i], 2) && data[at + (4 * i + 3)] == ByteOf(vs[i], 3);
      FourBytes(vs[i]);
    }
  }

  // ---- the writer ----

  /** What the file format can carry: section lengths that follow from the header, and values that fit. */
  ghost predicate Writable(ix: Index) {
    && ix.k < 0x1_0000_0000 && ix.n < 0x1_0000_0000 && ix.nBlocks < 0x1_0000_0000
    && |ix.centroids| == CeilDiv8(ix.k) * BLOCK_CODES && I16s(ix.centroids)
    && |ix.boxMin| == ix.k * PADDED && |ix.boxMax| == ix.k * PADDED && I16s(ix.boxMin) && I16s(ix.boxMax)
    && |ix.offsets| == ix.k + 1 && |ix.counts| == ix.k && U32s(ix.offsets) && U32s(ix.counts)
    && |ix.vectors| == ix.nBlocks * BLOCK_CODES && I16s(ix.vectors)
    && |ix.labels| == ix.nBlocks * LANES && Bytes(ix.labels)
  }

  function HeaderBytes(ix: Index, scale: int): (r: seq<int>)
    ensures |r| == HEADER_SIZE
  {
    EncodeU32([MAGIC, VERSION, ix.k, ix.n, ix.nBlocks, scale]) + seq(40, _ => 0)
  }

  /** The sections in file order. */
  function FileBytes(ix: Index, scale: int): seq<int> {
    HeaderBytes(ix, scale)
    + EncodeI16(ix.centroids) + EncodeI16(ix.boxMin) + EncodeI16(ix.boxMax)
    + EncodeU32(ix.offsets) + EncodeU32(ix.counts)
    + EncodeI16(ix.vectors) + ix.labels
  }

  method WriteI16(vs: seq<int>) returns (buf: array<int>)
    ensures buf[..] == EncodeI16(vs)
  {
    buf := new int[2 * |vs|](_ => 0);
    for i := 0 to |vs|
      invariant forall j :: 0 <= j < 2 * i ==> buf[j] == EncodeI16(vs)[j]
    {
      var u := U16(vs[i]);
      buf[2 * i] := u % 256;
      buf[2 * i + 1] := u / 256 % 256;
    }
  }

  method WriteU32(vs: seq<int>) returns (buf: array<int>)
    ensures buf[..] == EncodeU32(vs)
  {
    buf := new int[4 * |vs|](_ => 0);
    for i := 0 to |vs|
      invariant forall j :: 0 <= j < 4 * i ==> buf[j] == EncodeU32(vs)[j]
    {
      for b := 0 to 4
        invariant forall j :: 0 <= j < 4 * i + b ==> buf[j] == EncodeU32(vs)[j]
      {
        assert (4 * i + b) / 4 == i && (4 * i + b) % 4 == b;
        buf[4 * i + b] := ByteOf(vs[i], b);
      }
    }
  }

  method WriteFile(ix: Index, scale: int) returns (out: seq<int>)
    ensures out == FileBytes(ix, scale)
  {
    out := HeaderBytes(ix, scale);
    var buf := WriteI16(ix.centroids);
    out := out + buf[..];
    buf := WriteI16(ix.boxMin);
    out := out + buf[..];
    buf := WriteI16(ix.boxMax);
    out := out + buf[..];
    buf := WriteU32(ix.offsets);
    out := out + buf[..];
    buf := WriteU32(ix.counts);
    out := out + buf[..];
    buf := WriteI16(ix.vectors);
    out := out + buf[..];
    out := out + ix.labels;
  }

  // ---- the reader ----

  datatype OpenResult = Opened(index: Index) | TooSmall | BadMagic | BadVersion | OutOfRange

  /** Where each section starts, as the reader's cursor finds it from the header. */
  function BoxMinAt(k: nat): nat { HEADER_SIZE + CeilDiv8(k) * BLOCK_BYTES }

  function BoxMaxAt(k: nat): nat { BoxMinAt(k) + k * PADDED * 2 }

  function OffsetsAt(k: nat): nat { BoxMaxAt(k) + k * PADDED * 2 }

  function CountsAt(k: nat): nat { OffsetsAt(k) + (k + 1) * 4 }

  function VectorsAt(k: nat): nat { CountsAt(k) + k * 4 }

  function LabelsAt(k: nat, nb: nat): nat { VectorsAt(k) + nb * BLOCK_BYTES }

  lemma Adjacent(data: seq<int>, at: nat, a: seq<int>, b: seq<int>)
    requires At(data, at, a + b)
    ensures At(data, at, a) && At(data, at + |a|, b)
  {
    var ab := a + b;
    forall i | 0 <= i < |a| ensures data[at + i] == a[i] {
      assert ab[i] == a[i];
    }
    var mid := at + |a|;
    forall i | 0 <= i < |b| ensures data[mid + i] == b[i] {
      assert ab[|a| + i] == b[i];
    }
  }

  /** Every section boundary agrees between writer and reader. */
  lemma SectionsMeet(data: seq<int>, ix: Index, scale: int)
    requires Writable(ix) && At(data, 0, FileBytes(ix, scale))
    ensures At(data, 0, HeaderBytes(ix, scale))
    ensures At(data, HEADER_SIZE, EncodeI16(ix.centroids))
    ensures At(data, BoxMinAt(ix.k), EncodeI16(ix.boxMin)) && At(data, BoxMaxAt(ix.k), EncodeI16(ix.boxMax))
    ensures At(data, OffsetsAt(ix.k), EncodeU32(ix.offsets)) && At(data, CountsAt(ix.k), EncodeU32(ix.counts))
    ensures At(data, VectorsAt(ix.k), EncodeI16(ix.vectors)) && At(data, LabelsAt(ix.k, ix.nBlocks), ix.labels)
  {
    var h, c, lo, hi := HeaderBytes(ix, scale), EncodeI16(ix.centroids), EncodeI16(ix.boxMin), EncodeI16(ix.boxMax);
    var o, n, v := EncodeU32(ix.offsets), EncodeU32(ix.counts), EncodeI16(ix.vectors);
    hide HeaderBytes, EncodeI16, EncodeU32, At, I16s, U32s, Bytes;
    Adjacent(data, 0, h + c + lo + hi + o + n + v, ix.labels);
    Adjacent(data, 0, h + c + lo + hi + o + n, v);
    Adjacent(data, 0, h + c + lo + hi + o, n);
    Adjacent(data, 0, h + c + lo + hi, o);
    Adjacent(data, 0, h + c + lo, hi);
    Adjacent(data, 0, h + c, lo);
    Adjacent(data, 0, h, c);
    assert |h| == HEADER_SIZE && |h + c| == BoxMinAt(ix.k) && |h + c + lo| == BoxMaxAt(ix.k);
    assert |h + c + lo + hi| == OffsetsAt(ix.k) && |h + c + lo + hi + o| == CountsAt(ix.k);
    assert |h + c + lo + hi + o + n| == VectorsAt(ix.k);
    assert |h + c + lo + hi + o + n + v| == LabelsAt(ix.k, ix.nBlocks);
  }

  lemma HeaderFields(data: seq<int>, ix: Index, scale: int)
    requires Writable(ix) && 0 <= scale < 0x1_0000_0000 && Bytes(data) && At(data, 0, HeaderBytes(ix, scale))
    ensures ReadU32(data, 0) == MAGIC && ReadU32(data, 4) == VERSION
    ensures ReadU32(data, 8) == ix.k && ReadU32(data, 12) == ix.n && ReadU32(data, 16) == ix.nBlocks
  {
    var fields := [MAGIC, VERSION, ix.k, ix.n, ix.nBlocks, scale];
    Adjacent(data, 0, EncodeU32(fields), seq(40, _ => 0));
    hide EncodeU32, At, I16s, Bytes;
    U32RoundTrip(data, 0, fields);
    var u := U32Slice(data, 0, 6);
    assert u[0] == MAGIC && u[1] == VERSION && u[2] == ix.k && u[3] == ix.n && u[4] == ix.nBlocks;
  }

  /** The data holds the file of `ix`, possibly with more after it. */
  ghost predicate HoldsFile(data: seq<int>, ix: Index, scale: int) {
    Writable(ix) && 0 <= scale < 0x1_0000_0000 && At(data, 0, FileBytes(ix, scale))
  }

  /** The index whose sections are the slices at the reader's section starts. */
  function Sections(data: seq<int>, k: nat, n: nat, nb: nat): Index
    requires Bytes(data) && LabelsAt(k, nb) + nb * LANES <= |data|
  {
    Index(k, n, nb,
          I16Slice(data, HEADER_SIZE, CeilDiv8(k) * BLOCK_CODES),
          I16Slice(data, BoxMinAt(k), k * PADDED), I16Slice(data, BoxMaxAt(k), k * PADDED),
          U32Slice(data, OffsetsAt(k), k + 1), U32Slice(data, CountsAt(k), k),
          I16Slice(data, VectorsAt(k), nb * BLOCK_CODES), data[LabelsAt(k, nb)..LabelsAt(k, nb) + nb * LANES])
  }

  lemma LabelsSlice(data: seq<int>, at: nat, labels: seq<int>)
    requires At(data, at, labels)
    ensures data[at..at + |labels|] == labels
  {}

  /** Reading back what was written gives the same index, field by field. */
  lemma FileRoundTrip(data: seq<int>, ix: Index, scale: int)
    requires Bytes(data) && HoldsFile(data, ix, scale)
    ensures LabelsAt(ix.k, ix.nBlocks) + ix.nBlocks * LANES <= |data|
    ensures Sections(data, ix.k, ix.n, ix.nBlocks) == ix
  {
    SectionsMeet(data, ix, scale);
    LabelsSlice(data, LabelsAt(ix.k, ix.nBlocks), ix.labels);
    hide HeaderBytes, EncodeI16, EncodeU32, I16s, U32s, Bytes, FileBytes;
    I16RoundTrip(data, HEADER_SIZE, ix.centroids);
    I16RoundTrip(data, BoxMinAt(ix.k), ix.boxMin);
    I16RoundTrip(data, BoxMaxAt(ix.k), ix.boxMax);
    U32RoundTrip(data, OffsetsAt(ix.k), ix.offsets);
    U32RoundTrip(data, CountsAt(ix.k), ix.counts);
    I16RoundTrip(data, VectorsAt(ix.k), ix.vectors);
  }

  ghost predicate GoodHeader(data: seq<int>)
    requires Bytes(data)
  {
    && |data| >= HEADER_SIZE && ReadU32(data, 0) == MAGIC && ReadU32(data, 4) == VERSION
    && LabelsAt(ReadU32(data, 8), ReadU32(data, 16)) + ReadU32(data, 16) * LANES <= |data|
  }

  ghost function OpenedAt(data: seq<int>): OpenResult
    requires Bytes(data)
  {
    if !GoodHeader(data) then OutOfRange
    else Opened(Sections(data, ReadU32(data, 8), ReadU32(data, 12), ReadU32(data, 16)))
  }

  /** Any data that holds the file of an index has a good header and opens as that index. */
  lemma OpensAsWritten(data: seq<int>, ix: Index, scale: int)
    requires Bytes(data) && HoldsFile(data, ix, scale)
    ensures GoodHeader(data) && OpenedAt(data) == Opened(ix)
  {
    hide FileBytes, HeaderBytes, EncodeI16, EncodeU32, ReadU32, Sections, CeilDiv8, Bytes;
    SectionsMeet(data, ix, scale);
    HeaderFields(data, ix, scale);
    FileRoundTrip(data, ix, scale);
  }

  lemma HeldOpens(data: seq<int>)
    requires Bytes(data)
    ensures forall ix, scale :: HoldsFile(data, ix, scale) ==> GoodHeader(data) && OpenedAt(data) == Opened(ix)
  {
    hide HoldsFile, GoodHeader, OpenedAt, Bytes;
    forall ix, scale | HoldsFile(data, ix, scale) ensures GoodHeader(data) && OpenedAt(data) == Opened(ix) {
      OpensAsWritten(data, ix, scale);
    }
  }

  /** Every section is made of bytes. */
  lemma FileIsBytes(ix: Index, scale: int)
    requires Bytes(ix.labels)
    ensures Bytes(FileBytes(ix, scale))
  {
    EncodedBytes(ix.centroids);
    EncodedBytes(ix.boxMin);
    EncodedBytes(ix.boxMax);
    EncodedBytes(ix.offsets);
    EncodedBytes(ix.counts);
    EncodedBytes(ix.vectors);
    EncodedBytes([MAGIC, VERSION, ix.k, ix.n, ix.nBlocks, scale]);
    hide EncodeI16, EncodeU32;
  }

  lemma EncodedBytes(vs: seq<int>)
    ensures Bytes(EncodeI16(vs)) && Bytes(EncodeU32(vs))
  {}

  /**
   * Decodes the header and walks the cursor over the sections. A section that starts or ends past the end of
   * the file stops the program; as the cursor only moves forward, the last section decides.
   */
  method Open(data: seq<int>) returns (r: OpenResult)
    requires Bytes(data)
    ensures r == TooSmall <==> |data| < HEADER_SIZE
    ensures r == BadMagic <==> |data| >= HEADER_SIZE && ReadU32(data, 0) != MAGIC
    ensures r == BadVersion <==> |data| >= HEADER_SIZE && ReadU32(data, 0) == MAGIC && ReadU32(data, 4) != VERSION
    ensures r == OutOfRange <==>
              && |data| >= HEADER_SIZE && ReadU32(data, 0) == MAGIC && ReadU32(data, 4) == VERSION
              && LabelsAt(ReadU32(data, 8), ReadU32(data, 16)) + ReadU32(data, 16) * LANES > |data|
    ensures r.Opened? ==> r == OpenedAt(data)
    ensures forall ix, scale :: HoldsFile(data, ix, scale) ==> r == Opened(ix)
  {
    hide HoldsFile, ReadU32, Sections, LabelsAt, CeilDiv8, Bytes;
    HeldOpens(data);
    if |data| < HEADER_SIZE {
      return TooSmall;
    }
    if ReadU32(data, 0) != MAGIC {
      return BadMagic;
    }
    if ReadU32(data, 4) != VERSION {
      return BadVersion;
    }
    r := WalkSections(data, ReadU32(data, 8), ReadU32(data, 12), ReadU32(data, 16));
  }

  /** The cursor goes from section to section; the last one is checked against the end of the data. */
  method WalkSections(data: seq<int>, k: nat, n: nat, nb: nat) returns (r: OpenResult)
    requires Bytes(data)
    ensures r == if LabelsAt(k, nb) + nb * LANES > |data| then OutOfRange else Opened(Sections(data, k, n, nb))
  {
    hide I16Slice, U32Slice, CeilDiv8, Bytes;
    var cur := HEADER_SIZE;
    var ncb := CeilDiv8(k);
    var centroidsAt := cur;
    cur := cur + ncb * BLOCK_BYTES;
    var boxMinAt := cur;
    cur := cur + k * PADDED * 2;
    var boxMaxAt := cur;
    cur := cur + k * PADDED * 2;
    var offsetsAt := cur;
    cur := cur + (k + 1) * 4;
    var countsAt := cur;
    cur := cur + k * 4;
    var vectorsAt := cur;
    cur := cur + nb * BLOCK_BYTES;
    if cur + nb * LANES > |data| {
      return OutOfRange;
    }
    r := Opened(Index(k, n, nb,
                      I16Slice(data, centroidsAt, ncb * PADDED * LANES),
                      I16Slice(data, boxMinAt, k * PADDED), I16Slice(data, boxMaxAt, k * PADDED),
                      U32Slice(data, offsetsAt, k + 1), U32Slice(data, countsAt, k),
                      I16Slice(data, vectorsAt, nb * PADDED * LANES), data[cur..cur + nb * LANES]));
  }

  // ---- the format in numbers ----

  /** Low byte first, two's complement. */
  lemma BytesOrder(v: int, u: int)
    requires -32_768 <= v <= 32_767 && 0 <= u < 4_294_967_296
    ensures EncodeI16([v]) == [v % 256, v / 256 % 256]
    ensures EncodeU32([u]) == [u % 256, u / 256 % 256, u / 65_536 % 256, u / 16_777_216]
  {}

  lemma EncodeU32Concat(a: seq<int>, b: seq<int>)
    ensures EncodeU32(a + b) == EncodeU32(a) + EncodeU32(b)
  {
    hide ByteOf;
    var m := 4 * |a|;
    forall i | m <= i < m + 4 * |b| ensures EncodeU32(a + b)[i] == EncodeU32(b)[i - m] {
      assert i / 4 == |a| + (i - m) / 4 && i % 4 == (i - m) % 4;
    }
  }

  /** The header: its name in the first four bytes, the version, then the three counts and the scale. */
  lemma HeaderIs(ix: Index, scale: int)
    ensures HeaderBytes(ix, scale) ==
              EncodeU32([0x52494E48]) + (EncodeU32([4]) + (EncodeU32([ix.k]) + (EncodeU32([ix.n])
              + (EncodeU32([ix.nBlocks]) + EncodeU32([scale]))))) + seq(40, _ => 0)
  {
    hide EncodeU32;
    var k, n, nb := ix.k, ix.n, ix.nBlocks;
    EncodeU32Concat([nb], [scale]);
    EncodeU32Concat([n], [nb] + [scale]);
    EncodeU32Concat([k], [n] + ([nb] + [scale]));
    EncodeU32Concat([4], [k] + ([n] + ([nb] + [scale])));
    EncodeU32Concat([0x52494E48], [4] + ([k] + ([n] + ([nb] + [scale]))));
    assert [MAGIC, VERSION, k, n, nb, scale] == [0x52494E48] + ([4] + ([k] + ([n] + ([nb] + [scale]))));
  }

  /** Where the sections of an index start that has `j` blocks of centroids, all of them full, and `nb` of vectors. */
  lemma SectionStarts(j: nat, nb: nat)
    ensures BoxMinAt(8 * j) == 64 + 256 * j && BoxMaxAt(8 * j) == 64 + 512 * j && OffsetsAt(8 * j) == 64 + 768 * j
    ensures CountsAt(8 * j) == 68 + 800 * j && VectorsAt(8 * j) == 68 + 832 * j
    ensures LabelsAt(8 * j, nb) == 68 + 832 * j + 256 * nb
  {}
}
