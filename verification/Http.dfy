/** The request parser: one request from the front of a buffer, or the news that more bytes are needed. */
module Http {
  import opened Machine

  type Byte = x: int | 0 <= x < 256

  const CR: Byte := 13
  const LF: Byte := 10
  /** "POST /fraud-score" */
  const POST: seq<Byte> := [80, 79, 83, 84, 32, 47, 102, 114, 97, 117, 100, 45, 115, 99, 111, 114, 101]
  /** "GET /ready" */
  const GET: seq<Byte> := [71, 69, 84, 32, 47, 114, 101, 97, 100, 121]
  /** "content-length:" */
  const CONTENT_LENGTH: seq<Byte> := [99, 111, 110, 116, 101, 110, 116, 45, 108, 101, 110, 103, 116, 104, 58]

  datatype Method = Other | GetReady | PostScore

  /** A request and how many bytes it takes from the front of the buffer. */
  datatype Request = Request(kind: Method, body: seq<Byte>, end: nat)

  /** Crash: the declared length overflows an int, and cutting out the body stops the program. */
  datatype Parsed = Incomplete | Bad | Crash | Complete(request: Request)

  datatype Option<T> = None | Some(value: T)

  // ---- searching ----

  predicate SeparatorAt(buf: seq<Byte>, i: nat) {
    i + 4 <= |buf| && buf[i] == CR && buf[i + 1] == LF && buf[i + 2] == CR && buf[i + 3] == LF
  }

  /** The first blank line at or after `i`, or -1. */
  function FindSeparator(buf: seq<Byte>, i: nat): (r: int)
    ensures r == -1 || (i <= r && SeparatorAt(buf, r))
    ensures forall j :: i <= j && (r == -1 || j < r) ==> !SeparatorAt(buf, j)
    decreases |buf| - i
  {
    if i >= |buf| then -1 else if SeparatorAt(buf, i) then i else FindSeparator(buf, i + 1)
  }

  function FindLF(h: seq<Byte>, i: nat): (r: int)
    ensures r == -1 || (i <= r < |h| && h[r] == LF)
    ensures forall j :: i <= j < |h| && (r == -1 || j < r) ==> h[j] != LF
    decreases |h| - i
  {
    if i >= |h| then -1 else if h[i] == LF then i else FindLF(h, i + 1)
  }

  function Lower(c: Byte): Byte { if 65 <= c <= 90 then c + 32 else c }

  /** Equal up to the case of ASCII letters. */
  predicate EqualIgnoringCase(a: seq<Byte>, b: seq<Byte>) {
    |a| == |b| && forall k :: 0 <= k < |a| ==> Lower(a[k]) == Lower(b[k])
  }

  /** The same, or one an ASCII capital and the other its small letter. */
  predicate SameLetter(x: Byte, y: Byte) {
    x == y || (65 <= x <= 90 && y == x + 32) || (65 <= y <= 90 && x == y + 32)
  }

  predicate SameLetters(a: seq<Byte>, b: seq<Byte>) {
    |a| == |b| && forall k :: 0 <= k < |a| ==> SameLetter(a[k], b[k])
  }

  lemma EqualIgnoringCaseIff(a: seq<Byte>, b: seq<Byte>)
    ensures EqualIgnoringCase(a, b) <==> SameLetters(a, b)
  {
    forall x: Byte, y: Byte ensures Lower(x) == Lower(y) <==> SameLetter(x, y) {}
  }

  method AsciiEqlIgnoreCase(a: seq<Byte>, b: seq<Byte>) returns (same: bool)
    ensures same <==> EqualIgnoringCase(a, b)
    ensures same <==> SameLetters(a, b)
  {
    EqualIgnoringCaseIff(a, b);
    hide Lower, SameLetters;
    if |a| != |b| {
      return false;
    }
    for k := 0 to |a|
      invariant forall i :: 0 <= i < k ==> Lower(a[i]) == Lower(b[i])
    {
      if Lower(a[k]) != Lower(b[k]) {
        return false;
      }
    }
    return true;
  }

  // ---- the declared length ----

  predicate Digit(c: Byte) { 48 <= c <= 57 }

  function SkipBlanks(line: seq<Byte>, j: nat): (r: nat)
    requires j <= |line|
    ensures j <= r <= |line|
    decreases |line| - j
  {
    if j < |line| && (line[j] == 32 || line[j] == 9) then SkipBlanks(line, j + 1) else j
  }

  /** The value of the digits from `j` on, accumulated in 64 bits. */
  function DigitsFrom(line: seq<Byte>, j: nat, v: int): int
    requires j <= |line|
    decreases |line| - j
  {
    if j < |line| && Digit(line[j]) then DigitsFrom(line, j + 1, Wrap64(v * 10 + (line[j] - 48))) else v
  }

  /** The same digits read without a width. */
  function ValueFrom(line: seq<Byte>, j: nat, v: nat): (r: nat)
    requires j <= |line|
    ensures r >= v
    decreases |line| - j
  {
    if j < |line| && Digit(line[j]) then ValueFrom(line, j + 1, v * 10 + (line[j] - 48)) else v
  }

  lemma WrapStep(v: int, d: int)
    ensures Wrap64(Wrap64(v) * 10 + d) == Wrap64(v * 10 + d)
  {
    var m := 0x1_0000_0000_0000_0000;
    var k := (v + 0x8000_0000_0000_0000) / m;
    assert Wrap64(v) == v - k * m;
    assert Wrap64(v) * 10 + d == v * 10 + d - (10 * k) * m;
    WrapShift(v * 10 + d, -(10 * k));
  }

  lemma WrapShift(x: int, k: int)
    ensures Wrap64(x + k * 0x1_0000_0000_0000_0000) == Wrap64(x)
  {
    var m := 0x1_0000_0000_0000_0000;
    var y := x + 0x8000_0000_0000_0000;
    assert y + k * m == (y / m + k) * m + y % m;
    assert (y + k * m) % m == y % m;
  }

  /** Sixty-four bits hold the declared length modulo their range, so exactly when it fits. */
  lemma {:induction false} DigitsWrap(line: seq<Byte>, j: nat, v: nat)
    requires j <= |line|
    ensures DigitsFrom(line, j, Wrap64(v)) == Wrap64(ValueFrom(line, j, v))
    decreases |line| - j
  {
    if j < |line| && Digit(line[j]) {
      var d := line[j] - 48;
      WrapStep(v, d);
      DigitsWrap(line, j + 1, v * 10 + d);
    }
  }

  lemma LengthExactIff(line: seq<Byte>, j: nat)
    requires j <= |line|
    ensures DigitsFrom(line, j, 0) == ValueFrom(line, j, 0) <==> ValueFrom(line, j, 0) <= I64_MAX
  {
    DigitsWrap(line, j, 0);
  }

  function LineEnd(h: seq<Byte>, i: nat, nl: nat): (r: nat)
    requires i <= nl < |h|
    ensures i <= r <= nl
  {
    if nl > i && h[nl - 1] == CR then nl - 1 else nl
  }

  predicate IsLengthLine(line: seq<Byte>) {
    |line| >= 15 && EqualIgnoringCase(line[..15], CONTENT_LENGTH)
  }

  /** The length declared by the first matching line at or after `i`. */
  function ContentLength(h: seq<Byte>, i: nat): Option<int>
    decreases |h| - i
  {
    if i >= |h| then None
    else
      var nl := FindLF(h, i);
      if nl < 0 then None
      else
        var line := h[i..LineEnd(h, i, nl)];
        if IsLengthLine(line) then Some(DigitsFrom(line, SkipBlanks(line, 15), 0))
        else ContentLength(h, nl + 1)
  }

  /** Skips the blanks after the colon and reads the digits. */
  method ReadLength(line: seq<Byte>) returns (v: int)
    requires |line| >= 15
    ensures v == DigitsFrom(line, SkipBlanks(line, 15), 0)
  {
    var j := 15;
    while j < |line| && (line[j] == 32 || line[j] == 9)
      invariant 15 <= j <= |line|
      invariant SkipBlanks(line, j) == SkipBlanks(line, 15)
    {
      j := j + 1;
    }
    v := 0;
    while j < |line| && Digit(line[j])
      invariant 15 <= j <= |line|
      invariant DigitsFrom(line, j, v) == DigitsFrom(line, SkipBlanks(line, 15), 0)
    {
      v := Wrap64(v * 10 + (line[j] - 48));
      j := j + 1;
    }
  }

  method FindContentLength(h: seq<Byte>) returns (length: int, ok: bool)
    ensures ok <==> ContentLength(h, 0).Some?
    ensures ok ==> length == ContentLength(h, 0).value
  {
    hide DigitsFrom, SkipBlanks, FindLF, EqualIgnoringCase;
    var i := 0;
    while i < |h|
      invariant 0 <= i
      invariant ContentLength(h, i) == ContentLength(h, 0)
    {
      var nl := FindLF(h, i);
      if nl < 0 {
        return 0, false;
      }
      var line := h[i..LineEnd(h, i, nl)];
      i := nl + 1;
      if |line| < 15 {
        continue;
      }
      var same := AsciiEqlIgnoreCase(line[..15], CONTENT_LENGTH);
      if same {
        length := ReadLength(line);
        return length, true;
      }
    }
    return 0, false;
  }

  // ---- one request ----

  /** The request at the front of `buf`, once the blank line after its header is at `sep`. */
  function PostAt(buf: seq<Byte>, sep: nat): Parsed
    requires SeparatorAt(buf, sep)
  {
    match ContentLength(buf[..sep + 2], 0)
    case None => Bad
    case Some(length) =>
      var bodyStart := sep + 4;
      var total := Wrap64(bodyStart + length);
      if |buf| < total then Incomplete
      else if total < bodyStart then Crash
      else Complete(Request(PostScore, buf[bodyStart..total], total))
  }

  function Parse(buf: seq<Byte>): (r: Parsed)
    ensures r.Complete? ==> 4 <= r.request.end <= |buf|
  {
    if |buf| < 16 then Incomplete
    else
      var sep := FindSeparator(buf, 0);
      if sep < 0 then Incomplete
      else if POST <= buf then PostAt(buf, sep)
      else if GET <= buf then Complete(Request(GetReady, [], sep + 4))
      else Complete(Request(Other, [], sep + 4))
  }

  method ParseRequest(buf: seq<Byte>) returns (r: Parsed)
    ensures r == Parse(buf)
  {
    hide ContentLength, FindSeparator;
    if |buf| < 16 {
      return Incomplete;
    }
    var sep := FindSeparator(buf, 0);
    if POST <= buf {
      if sep < 0 {
        return Incomplete;
      }
      var length, ok := FindContentLength(buf[..sep + 2]);
      if !ok {
        return Bad;
      }
      var bodyStart := sep + 4;
      var total := Wrap64(bodyStart + length);
      if |buf| < total {
        return Incomplete;
      }
      if total < bodyStart {
        return Crash;
      }
      return Complete(Request(PostScore, buf[bodyStart..total], total));
    }
    if GET <= buf {
      if sep < 0 {
        return Incomplete;
      }
      return Complete(Request(GetReady, [], sep + 4));
    }
    if sep < 0 {
      return Incomplete;
    }
    return Complete(Request(Other, [], sep + 4));
  }

  // ---- the declared length without a width ----

  /** The length written in the first matching line at or after `i`. */
  function WrittenLength(h: seq<Byte>, i: nat): Option<nat>
    decreases |h| - i
  {
    if i >= |h| then None
    else
      var nl := FindLF(h, i);
      if nl < 0 then None
      else
        var line := h[i..LineEnd(h, i, nl)];
        if IsLengthLine(line) then Some(ValueFrom(line, SkipBlanks(line, 15), 0))
        else WrittenLength(h, nl + 1)
  }

  /** What the header declares, as the parser sees it: the written length modulo the range of 64 bits. */
  lemma {:induction false} DeclaredIsWrapped(h: seq<Byte>, i: nat)
    ensures ContentLength(h, i) ==
              match WrittenLength(h, i) case None => None case Some(v) => Some(Wrap64(v))
    decreases |h| - i
  {
    hide DigitsFrom, ValueFrom, SkipBlanks, IsLengthLine, Wrap64;
    if i < |h| {
      var nl := FindLF(h, i);
      if nl >= 0 {
        var line := h[i..LineEnd(h, i, nl)];
        if IsLengthLine(line) {
          LengthLineIsLong(line);
          WrapZero();
          DigitsWrap(line, SkipBlanks(line, 15), 0);
        } else {
          DeclaredIsWrapped(h, nl + 1);
        }
      }
    }
  }

  lemma LengthLineIsLong(line: seq<Byte>)
    requires IsLengthLine(line)
    ensures |line| >= 15
  {}

  lemma WrapZero()
    ensures Wrap64(0) == 0
  {}

  /** The request as its header means it, with no bound on the length. */
  function UnboundedPostAt(buf: seq<Byte>, sep: nat): Parsed
    requires SeparatorAt(buf, sep)
  {
    match WrittenLength(buf[..sep + 2], 0)
    case None => Bad
    case Some(v) =>
      var total := sep + 4 + v;
      if |buf| < total then Incomplete else Complete(Request(PostScore, buf[sep + 4..total], total))
  }

  /** The end of the request overflows an int and comes back inside the buffer. */
  predicate EndWrapsInside(buf: seq<Byte>, sep: nat, v: nat) {
    sep + 4 + v > I64_MAX && Wrap64(sep + 4 + v) <= |buf|
  }

  /**
   * The parser gives what the header means unless the end of the request overflows an int and comes back inside the
   * buffer, and it stops the program exactly when that end comes back before the body starts.
   */
  lemma PostExactIff(buf: seq<Byte>, sep: nat)
    requires SeparatorAt(buf, sep)
    ensures var w := WrittenLength(buf[..sep + 2], 0);
            && (PostAt(buf, sep) == UnboundedPostAt(buf, sep) <==> w.None? || !EndWrapsInside(buf, sep, w.value))
            && (PostAt(buf, sep) == Crash <==> w.Some? && Wrap64(sep + 4 + w.value) < sep + 4)
  {
    hide WrittenLength, ContentLength;
    DeclaredIsWrapped(buf[..sep + 2], 0);
    var w := WrittenLength(buf[..sep + 2], 0);
    if w.Some? { WrapSum(sep + 4, w.value); }
  }

  lemma WrapSum(a: int, v: int)
    ensures Wrap64(a + Wrap64(v)) == Wrap64(a + v)
  {
    var m := 0x1_0000_0000_0000_0000;
    var k := (v + 0x8000_0000_0000_0000) / m;
    assert Wrap64(v) == v - k * m;
    WrapShift(a + v, -k);
  }

  function UnboundedParse(buf: seq<Byte>): Parsed {
    var sep := FindSeparator(buf, 0);
    if |buf| >= 16 && sep >= 0 && POST <= buf then UnboundedPostAt(buf, sep) else Parse(buf)
  }

  /** The same for whole requests: only a scoring request with an overflowing length is read wrongly. */
  lemma ParseExactIff(buf: seq<Byte>)
    ensures Parse(buf) == UnboundedParse(buf) <==>
              var sep := FindSeparator(buf, 0);
              !(|buf| >= 16 && sep >= 0 && POST <= buf
                && var w := WrittenLength(buf[..sep + 2], 0); w.Some? && EndWrapsInside(buf, sep, w.value))
  {
    hide WrittenLength, ContentLength, EndWrapsInside, UnboundedPostAt, PostAt;
    var sep := FindSeparator(buf, 0);
    if sep >= 0 { PostExactIff(buf, sep); }
  }

  // ---- more bytes ----

  /** The first blank line does not move when bytes are added after it. */
  lemma SeparatorStable(buf: seq<Byte>, more: seq<Byte>)
    ensures FindSeparator(buf, 0) >= 0 ==> FindSeparator(buf + more, 0) == FindSeparator(buf, 0)
    ensures var sep := FindSeparator(buf + more, 0);
            0 <= sep && sep + 4 <= |buf| ==> FindSeparator(buf, 0) == sep
  {
    forall i | 0 <= i && i + 4 <= |buf| ensures SeparatorAt(buf, i) <==> SeparatorAt(buf + more, i) {}
    var a, b := FindSeparator(buf, 0), FindSeparator(buf + more, 0);
    if a >= 0 {
      assert SeparatorAt(buf + more, a);
    }
    if 0 <= b && b + 4 <= |buf| {
      assert SeparatorAt(buf, b);
    }
  }

  /** A buffer that could still grow into a scoring request holds no blank line yet. */
  lemma NoSeparatorInsidePost(buf: seq<Byte>, more: seq<Byte>)
    requires 16 <= |buf| < 17 && POST <= buf + more
    ensures FindSeparator(buf, 0) == -1
  {
    forall i | 0 <= i ensures !SeparatorAt(buf, i) {
      if i + 4 <= |buf| { assert buf[i + 1] == POST[i + 1]; }
    }
  }

  /** An answer does not change when more bytes arrive. */
  lemma ParseStable(buf: seq<Byte>, more: seq<Byte>)
    requires !Parse(buf).Incomplete?
    ensures Parse(buf + more) == Parse(buf)
  {
    SeparatorStable(buf, more);
    var all, sep := buf + more, FindSeparator(buf, 0);
    if |buf| < 17 && POST <= all { NoSeparatorInsidePost(buf, more); }
    assert POST <= all <==> POST <= buf;
    assert GET <= all <==> GET <= buf;
    assert all[..sep + 2] == buf[..sep + 2];
    hide ContentLength, FindSeparator;
    if POST <= buf {
      PostStable(buf, more, sep);
    }
  }

  lemma PostStable(buf: seq<Byte>, more: seq<Byte>, sep: nat)
    requires SeparatorAt(buf, sep) && !PostAt(buf, sep).Incomplete?
    ensures SeparatorAt(buf + more, sep) && PostAt(buf + more, sep) == PostAt(buf, sep)
  {
    hide ContentLength;
    var all := buf + more;
    assert all[..sep + 2] == buf[..sep + 2];
    if PostAt(buf, sep).Complete? {
      var total := PostAt(buf, sep).request.end;
      assert all[sep + 4..total] == buf[sep + 4..total];
    }
  }

  /** A request is already complete in any window that holds it and is long enough to be looked at. */
  lemma ParseWindow(s: seq<Byte>, n: nat)
    requires Parse(s).Complete? && Parse(s).request.end <= n <= |s| && 17 <= n
    ensures Parse(s[..n]) == Parse(s)
  {
    var buf, more := s[..n], s[n..];
    assert buf + more == s;
    SeparatorStable(buf, more);
    var sep := FindSeparator(s, 0);
    assert POST <= s <==> POST <= buf;
    assert GET <= s <==> GET <= buf;
    hide ContentLength, FindSeparator;
    if POST <= s {
      PostWindow(s, n, sep);
    }
  }

  lemma PostWindow(s: seq<Byte>, n: nat, sep: nat)
    requires SeparatorAt(s, sep) && PostAt(s, sep).Complete? && PostAt(s, sep).request.end <= n <= |s|
    ensures SeparatorAt(s[..n], sep) && PostAt(s[..n], sep) == PostAt(s, sep)
  {
    hide ContentLength;
    assert s[..n][..sep + 2] == s[..sep + 2];
    var total := PostAt(s, sep).request.end;
    assert s[..n][sep + 4..total] == s[sep + 4..total];
  }
}
