/** Requests written out, with any header lines around the length and its name in any case, are read back. */
module HttpRoundTrip {
  import opened Machine
  import opened Http

  // ---- lines ----

  /** A header line: it is not empty and holds no line break. */
  predicate Clean(line: seq<Byte>) { line != [] && Unbroken(line) }

  predicate Unbroken(line: seq<Byte>) { forall k :: 0 <= k < |line| ==> line[k] != 13 && line[k] != 10 }

  ghost predicate AllClean(ls: seq<seq<Byte>>) { forall i :: 0 <= i < |ls| ==> Clean(ls[i]) }

  /** Every line with its line break. */
  function Lines(ls: seq<seq<Byte>>): (r: seq<Byte>)
    ensures |r| >= 2 * |ls|
  {
    if ls == [] then [] else ls[0] + ([13, 10] + Lines(ls[1..]))
  }

  lemma {:induction false} LinesConcat(a: seq<seq<Byte>>, b: seq<seq<Byte>>)
    ensures Lines(a + b) == Lines(a) + Lines(b)
  {
    if a == [] {
      assert a + b == b;
    } else {
      assert (a + b)[1..] == a[1..] + b;
      LinesConcat(a[1..], b);
    }
  }

  lemma OneLine(l: seq<Byte>)
    ensures Lines([l]) == l + [13, 10]
  {
    var ls := [l];
    assert ls[1..] == [] && Lines(ls[1..]) == [];
  }

  lemma FirstLine(l: seq<Byte>, rest: seq<Byte>)
    requires Clean(l)
    ensures var s := l + ([13, 10] + rest);
            && s[|l|] == 13 && s[|l| + 1] == 10 && s[|l| + 2..] == rest
            && forall j :: 0 <= j < |l| ==> s[j] != 13 && s[j] != 10
  {}

  /** No empty line starts within a line or its line break, when the next line is not empty. */
  lemma LineStep(l: seq<Byte>, rest: seq<Byte>, j: nat)
    requires Clean(l) && rest != [] && rest[0] != 13
    ensures SeparatorAt(l + ([13, 10] + rest), j) <==> j >= |l| + 2 && SeparatorAt(rest, j - (|l| + 2))
  {
    var s := l + ([13, 10] + rest);
    FirstLine(l, rest);
    hide Clean;
    assert s[|l| + 2] == rest[0];
    if j >= |l| + 2 {
      var i := j - (|l| + 2);
      assert i + 4 <= |rest| <==> j + 4 <= |s|;
      assert s[|l| + 2..] == rest;
    }
  }

  lemma LastLine(l: seq<Byte>, body: seq<Byte>, j: nat)
    requires Clean(l)
    ensures SeparatorAt(l + ([13, 10] + ([13, 10] + body)), |l|)
    ensures j < |l| ==> !SeparatorAt(l + ([13, 10] + ([13, 10] + body)), j)
  {
    FirstLine(l, [13, 10] + body);
  }

  /** The header ends at its first empty line. */
  lemma {:induction false} BlankLine(ls: seq<seq<Byte>>, body: seq<Byte>, j: nat)
    requires ls != [] && AllClean(ls)
    ensures SeparatorAt(Lines(ls) + ([13, 10] + body), |Lines(ls)| - 2)
    ensures j < |Lines(ls)| - 2 ==> !SeparatorAt(Lines(ls) + ([13, 10] + body), j)
    decreases |ls|
  {
    hide SeparatorAt, Clean;
    var l, more := ls[0], ls[1..];
    if more == [] {
      assert Lines(ls) + ([13, 10] + body) == l + ([13, 10] + ([13, 10] + body));
      LastLine(l, body, j);
    } else {
      var rest, n := Lines(more) + ([13, 10] + body), |l| + 2;
      assert Lines(ls) + ([13, 10] + body) == l + ([13, 10] + rest);
      NextLine(more, [13, 10] + body);
      BlankLine(more, body, if j >= n then j - n else 0);
      LineStep(l, rest, j);
      LineStep(l, rest, n + |Lines(more)| - 2);
    }
  }

  lemma NextLine(ls: seq<seq<Byte>>, s: seq<Byte>)
    requires ls != [] && AllClean(ls)
    ensures Lines(ls) + s != [] && (Lines(ls) + s)[0] != 13
  {
    assert Clean(ls[0]);
  }

  lemma HeaderEnd(ls: seq<seq<Byte>>, body: seq<Byte>)
    requires ls != [] && AllClean(ls)
    ensures FindSeparator(Lines(ls) + ([13, 10] + body), 0) == |Lines(ls)| - 2
  {
    var s := Lines(ls) + ([13, 10] + body);
    BlankLine(ls, body, 0);
    forall j | 0 <= j < |Lines(ls)| - 2 ensures !SeparatorAt(s, j) { BlankLine(ls, body, j); }
    hide Lines, FindSeparator;
  }

  // ---- the length among them ----

  lemma {:induction false} WrittenShift(p: seq<Byte>, s: seq<Byte>, i: nat)
    ensures WrittenLength(p + s, |p| + i) == WrittenLength(s, i)
    decreases |s| - i
  {
    hide IsLengthLine, ValueFrom, SkipBlanks, FindLF;
    if i < |s| {
      ShiftLF(p, s, i);
      var nl := FindLF(s, i);
      if nl >= 0 {
        assert LineEnd(p + s, |p| + i, |p| + nl) == |p| + LineEnd(s, i, nl);
        assert (p + s)[|p| + i..|p| + LineEnd(s, i, nl)] == s[i..LineEnd(s, i, nl)];
        WrittenShift(p, s, nl + 1);
      }
    }
  }

  lemma ShiftLF(p: seq<Byte>, s: seq<Byte>, i: nat)
    ensures FindLF(p + s, |p| + i) == if FindLF(s, i) < 0 then -1 else |p| + FindLF(s, i)
  {
    hide FindLF;
    var a, b := FindLF(p + s, |p| + i), FindLF(s, i);
    if b >= 0 { assert (p + s)[|p| + b] == LF; }
    if a >= 0 { assert s[a - |p|] == LF; }
  }

  lemma FirstLineFound(l: seq<Byte>, rest: seq<Byte>)
    requires Clean(l)
    ensures var h := l + ([13, 10] + rest);
            FindLF(h, 0) == |l| + 1 && LineEnd(h, 0, |l| + 1) == |l| && h[0..|l|] == l && h == l + [13, 10] + rest
  {
    hide FindLF, Clean;
    FirstLine(l, rest);
  }

  /** The first line of a header is its length line, or the length is that of the other lines. */
  lemma WrittenFirst(l: seq<Byte>, rest: seq<Byte>)
    requires Clean(l)
    ensures WrittenLength(l + ([13, 10] + rest), 0) ==
              if IsLengthLine(l) then LengthLineIsLong(l); Some(ValueFrom(l, SkipBlanks(l, 15), 0))
              else WrittenLength(rest, 0)
  {
    hide IsLengthLine, ValueFrom, SkipBlanks, FindLF, LineEnd, Clean;
    var h, n := l + ([13, 10] + rest), |l| + 2;
    FirstLineFound(l, rest);
    WrittenShift(l + [13, 10], rest, 0);
    assert WrittenLength(h, n) == WrittenLength(rest, 0);
  }

  /** The length declared is that of the first length line, whatever lines stand before and after it. */
  lemma {:induction false} LengthFound(before: seq<seq<Byte>>, line: seq<Byte>, after: seq<Byte>)
    requires AllClean(before) && Clean(line) && IsLengthLine(line)
    requires forall i :: 0 <= i < |before| ==> !IsLengthLine(before[i])
    ensures |line| >= 15
    ensures WrittenLength(Lines(before) + (line + ([13, 10] + after)), 0)
         == Some(ValueFrom(line, SkipBlanks(line, 15), 0))
    decreases |before|
  {
    hide IsLengthLine, ValueFrom, SkipBlanks, WrittenLength;
    LengthLineIsLong(line);
    var rest := line + ([13, 10] + after);
    if before == [] {
      assert Lines(before) + rest == rest;
      WrittenFirst(line, after);
    } else {
      var l, more := before[0], Lines(before[1..]) + rest;
      assert Clean(l) && AllClean(before[1..]);
      LengthFound(before[1..], line, after);
      assert Lines(before) + rest == l + ([13, 10] + more);
      WrittenFirst(l, more);
    }
  }

  // ---- the length line ----

  /** The value of a decimal numeral. */
  function Value(digits: seq<Byte>): nat
    requires Numeral(digits)
  {
    if digits == [] then 0 else Value(digits[..|digits| - 1]) * 10 + (digits[|digits| - 1] - 48)
  }

  predicate Numeral(digits: seq<Byte>) { forall i :: 0 <= i < |digits| ==> 48 <= digits[i] <= 57 }

  predicate Spaces(w: seq<Byte>) { forall i :: 0 <= i < |w| ==> w[i] == 32 || w[i] == 9 }

  /** What follows the digits does not begin with another. */
  predicate EndsDigits(rest: seq<Byte>) { rest != [] ==> !(48 <= rest[0] <= 57) }

  lemma {:induction false} BlanksSkipped(p: seq<Byte>, w: seq<Byte>, s: seq<Byte>)
    requires Spaces(w) && (s != [] ==> s[0] != 32 && s[0] != 9)
    ensures SkipBlanks(p + w + s, |p|) == |p| + |w|
    decreases |w|
  {
    var line := p + w + s;
    if w == [] {
      assert s != [] ==> line[|p|] == s[0];
    } else {
      var p' := p + [w[0]];
      assert line == p' + w[1..] + s && line[|p|] == w[0];
      BlanksSkipped(p', w[1..], s);
    }
  }

  lemma {:induction false} DigitsRead(p: seq<Byte>, seen: seq<Byte>, digits: seq<Byte>, rest: seq<Byte>)
    requires Numeral(seen) && Numeral(digits) && EndsDigits(rest)
    ensures Numeral(seen + digits)
    ensures ValueFrom(p + digits + rest, |p|, Value(seen)) == Value(seen + digits)
    decreases |digits|
  {
    var line := p + digits + rest;
    if digits == [] {
      assert seen + digits == seen && (rest != [] ==> line[|p|] == rest[0]);
    } else {
      var d := digits[0];
      var p', seen' := p + [d], seen + [d];
      assert line == p' + digits[1..] + rest && line[|p|] == d;
      assert seen' + digits[1..] == seen + digits && seen'[..|seen|] == seen;
      DigitsRead(p', seen', digits[1..], rest);
    }
  }

  /** A length line: the name in any case, blanks, the digits if any, and anything that is no digit after them. */
  datatype Length = Length(name: seq<Byte>, blanks: seq<Byte>, digits: seq<Byte>, rest: seq<Byte>) {
    function Line(): seq<Byte> { name + blanks + digits + rest }

    predicate Good() {
      && SameLetters(name, CONTENT_LENGTH) && Spaces(blanks) && Numeral(digits) && EndsDigits(rest) && Unbroken(rest)
      && (digits == [] && rest != [] ==> rest[0] != 32 && rest[0] != 9)
    }
  }

  lemma LengthReads(l: Length)
    requires l.Good()
    ensures Clean(l.Line()) && IsLengthLine(l.Line()) && |l.Line()| >= 15
    ensures ValueFrom(l.Line(), SkipBlanks(l.Line(), 15), 0) == Value(l.digits)
  {
    LengthShape(l);
    hide IsLengthLine, Clean, ValueFrom, SkipBlanks, SameLetters;
    var line, s := l.Line(), l.digits + l.rest;
    assert line == l.name + l.blanks + s;
    assert (l.digits != [] ==> s[0] == l.digits[0]) && (l.digits == [] ==> s == l.rest);
    BlanksSkipped(l.name, l.blanks, s);
    assert [] + l.digits == l.digits;
    DigitsRead(l.name + l.blanks, [], l.digits, l.rest);
  }

  lemma LengthShape(l: Length)
    requires l.Good()
    ensures Clean(l.Line()) && IsLengthLine(l.Line()) && |l.name| == 15
  {
    var line := l.Line();
    assert line[..15] == l.name;
    EqualIgnoringCaseIff(l.name, CONTENT_LENGTH);
    NameUnbroken(l.name);
    hide SameLetters, EqualIgnoringCase, SameLetter;
    AllUnbroken(l.name, l.blanks, l.digits, l.rest);
  }

  lemma AllUnbroken(a: seq<Byte>, b: seq<Byte>, c: seq<Byte>, d: seq<Byte>)
    requires Unbroken(a) && Spaces(b) && Numeral(c) && Unbroken(d)
    ensures Unbroken(a + b + c + d)
  {}

  lemma NameUnbroken(name: seq<Byte>)
    requires SameLetters(name, CONTENT_LENGTH)
    ensures Unbroken(name)
  {}

  // ---- the request ----

  /** A scoring request as it is written: the rest of its first line, header lines around the length, the body. */
  datatype Post = Post(
    target: seq<Byte>, before: seq<seq<Byte>>, length: Length, after: seq<seq<Byte>>, body: seq<Byte>)
  {
    function First(): seq<Byte> { POST + target }

    function Header(): seq<seq<Byte>> { [First()] + before + ([length.Line()] + after) }

    function Bytes(): seq<Byte> { Lines(Header()) + ([13, 10] + body) }

    ghost predicate Good() {
      && Unbroken(target) && AllClean(before) && AllClean(after) && length.Good()
      && forall i :: 0 <= i < |before| ==> |before[i]| < 15 || !SameLetters(before[i][..15], CONTENT_LENGTH)
    }
  }

  lemma FirstIsNoLength(target: seq<Byte>)
    requires Unbroken(target)
    ensures Clean(POST + target) && !IsLengthLine(POST + target)
  {
    var line := POST + target;
    assert line[..15][0] == 80 && Lower(line[..15][0]) != Lower(CONTENT_LENGTH[0]);
    assert forall k :: 0 <= k < 17 ==> line[k] == POST[k];
  }

  lemma OtherLine(line: seq<Byte>)
    requires |line| < 15 || !SameLetters(line[..15], CONTENT_LENGTH)
    ensures !IsLengthLine(line)
  {
    if |line| >= 15 { EqualIgnoringCaseIff(line[..15], CONTENT_LENGTH); }
  }

  lemma HeaderClean(p: Post)
    requires p.Good()
    ensures AllClean(p.Header()) && AllClean([p.First()] + p.before)
    ensures forall i :: 0 <= i <= |p.before| ==> !IsLengthLine(([p.First()] + p.before)[i])
  {
    hide IsLengthLine, Clean;
    FirstIsNoLength(p.target);
    LengthReads(p.length);
    forall i | 0 <= i < |p.before| ensures !IsLengthLine(p.before[i]) { OtherLine(p.before[i]); }
  }

  /** Where the header of a written request ends, and what it declares. */
  lemma PostHeader(p: Post)
    requires p.Good()
    ensures var buf, sep := p.Bytes(), |Lines(p.Header())| - 2;
            && sep >= 17 && POST <= buf && FindSeparator(buf, 0) == sep
            && |buf| == sep + 4 + |p.body| && buf[sep + 4..] == p.body
            && WrittenLength(buf[..sep + 2], 0) == Some(Value(p.length.digits))
  {
    hide IsLengthLine, WrittenLength, FindSeparator, ValueFrom, SkipBlanks, Clean;
    HeaderClean(p);
    LengthReads(p.length);
    HeaderEnd(p.Header(), p.body);
    var front, line := [p.First()] + p.before, p.length.Line();
    LinesConcat(front, [line] + p.after);
    LinesConcat([line], p.after);
    OneLine(line);
    var h := Lines(p.Header());
    assert h == Lines(front) + (line + ([13, 10] + Lines(p.after)));
    LengthFound(front, line, Lines(p.after));
    assert p.Bytes()[..|h|] == h;
    assert h == p.First() + ([13, 10] + Lines(p.Header()[1..]));
  }

  /** A request that declares the length of its body is read back, whatever follows. */
  lemma PostRoundTrip(p: Post, more: seq<Byte>)
    requires p.Good() && Value(p.length.digits) == |p.body| && |p.Bytes()| <= I64_MAX
    ensures Parse(p.Bytes() + more) == Complete(Request(PostScore, p.body, |p.Bytes()|))
  {
    hide WrittenLength, ContentLength, FindSeparator, PostAt, Value, Lines;
    var buf, sep := p.Bytes(), |Lines(p.Header())| - 2;
    PostHeader(p);
    PostExactIff(buf, sep);
    assert buf[sep + 4..|buf|] == p.body;
    ParseStable(buf, more);
  }

  /** As long as less than the declared length has arrived, the request is incomplete. */
  lemma ShortBody(p: Post)
    requires p.Good() && |p.body| < Value(p.length.digits)
    requires |Lines(p.Header())| + 2 + Value(p.length.digits) <= I64_MAX
    ensures Parse(p.Bytes()) == Incomplete
  {
    hide WrittenLength, ContentLength, FindSeparator, PostAt, Value, Lines;
    PostHeader(p);
    PostExactIff(p.Bytes(), |Lines(p.Header())| - 2);
  }

  // ---- requests without a body ----

  ghost predicate EmptyLineAt(buf: seq<Byte>, i: nat) { i + 4 <= |buf| && buf[i..i + 4] == [13, 10, 13, 10] }

  lemma EmptyLineIs(buf: seq<Byte>, i: nat)
    ensures SeparatorAt(buf, i) <==> EmptyLineAt(buf, i)
  {
    if i + 4 <= |buf| {
      assert buf[i..i + 4] == [buf[i], buf[i + 1], buf[i + 2], buf[i + 3]];
    }
  }

  /** Nothing is read before an empty line, and a request that is not to be scored ends at the first. */
  lemma EndsAtEmptyLine(buf: seq<Byte>, i: nat)
    ensures (forall j: nat :: !EmptyLineAt(buf, j)) ==> Parse(buf) == Incomplete
    ensures |buf| >= 16 && !(POST <= buf) && EmptyLineAt(buf, i) && (forall j: nat :: j < i ==> !EmptyLineAt(buf, j))
            ==> Parse(buf) == Complete(Request(if GET <= buf then GetReady else Other, [], i + 4))
  {
    hide EmptyLineAt, SeparatorAt, PostAt;
    forall j: nat ensures SeparatorAt(buf, j) <==> EmptyLineAt(buf, j) { EmptyLineIs(buf, j); }
  }

  // ---- every body has a request ----

  /** The digits of a number. */
  function Decimal(n: nat): (ds: seq<Byte>)
    ensures ds != [] && Numeral(ds) && Value(ds) == n
  {
    var d := [n % 10 + 48];
    if n < 10 then assert d[..0] == []; d
    else
      var front := Decimal(n / 10);
      assert (front + d)[..|front|] == front;
      front + d
  }

  /** The shortest request that carries a body. */
  function Plain(digits: seq<Byte>, body: seq<Byte>): Post {
    Post([], [], Length(CONTENT_LENGTH, [], digits, []), [], body)
  }

  /** Every body has a request that is read back to it. */
  lemma BodyRoundTrip(body: seq<Byte>, more: seq<Byte>)
    requires |Plain(Decimal(|body|), body).Bytes()| <= I64_MAX
    ensures var p := Plain(Decimal(|body|), body);
            Parse(p.Bytes() + more) == Complete(Request(PostScore, body, |p.Bytes()|))
  {
    PostRoundTrip(Plain(Decimal(|body|), body), more);
  }

  // ---- a header without a length ----

  lemma {:induction false} NoLengthFound(ls: seq<seq<Byte>>)
    requires AllClean(ls) && forall i :: 0 <= i < |ls| ==> !IsLengthLine(ls[i])
    ensures WrittenLength(Lines(ls), 0) == None
  {
    if ls != [] {
      hide IsLengthLine, WrittenLength, Clean;
      assert Clean(ls[0]);
      NoLengthFound(ls[1..]);
      WrittenFirst(ls[0], Lines(ls[1..]));
    }
  }

  /** A scoring request none of whose header lines declares a length is bad, whatever its lines and what follows. */
  lemma NoLengthIsBad(target: seq<Byte>, lines: seq<seq<Byte>>, more: seq<Byte>)
    requires Unbroken(target) && AllClean(lines)
    requires forall i :: 0 <= i < |lines| ==> |lines[i]| < 15 || !SameLetters(lines[i][..15], CONTENT_LENGTH)
    ensures Parse(Lines([POST + target] + lines) + ([13, 10] + more)) == Bad
  {
    hide IsLengthLine, WrittenLength, ContentLength, FindSeparator, Clean;
    var ls := [POST + target] + lines;
    var h := Lines(ls);
    var buf := h + ([13, 10] + more);
    FirstIsNoLength(target);
    forall i | 0 <= i < |lines| ensures !IsLengthLine(lines[i]) { OtherLine(lines[i]); }
    HeaderEnd(ls, more);
    BlankLine(ls, more, 0);
    NoLengthFound(ls);
    DeclaredIsWrapped(h, 0);
    assert h == POST + target + ([13, 10] + Lines(ls[1..]));
    assert buf[..|h|] == h && POST <= buf;
  }

  // ---- a length that overflows ----

  function TenTo(n: nat): nat { if n == 0 then 1 else 10 * TenTo(n - 1) }

  lemma {:induction false} NinesValue(digits: seq<Byte>)
    requires forall k :: 0 <= k < |digits| ==> digits[k] == 57
    ensures Numeral(digits) && Value(digits) == TenTo(|digits|) - 1
  {
    if digits != [] { NinesValue(digits[..|digits| - 1]); }
  }

  lemma NineteenPlaces()
    ensures TenTo(19) == 10_000_000_000_000_000_000
  {
    assert TenTo(2) == 100;
    assert TenTo(4) == 10_000;
    assert TenTo(6) == 1_000_000;
    assert TenTo(8) == 100_000_000;
    assert TenTo(10) == 10_000_000_000;
    assert TenTo(12) == 1_000_000_000_000;
    assert TenTo(14) == 100_000_000_000_000;
    assert TenTo(16) == 10_000_000_000_000_000;
    assert TenTo(18) == 1_000_000_000_000_000_000;
  }

  lemma PlainHeader(digits: seq<Byte>, body: seq<Byte>)
    requires digits != [] && Numeral(digits)
    ensures var p := Plain(digits, body); p.Good() && |Lines(p.Header())| == 36 + |digits|
  {
    var p := Plain(digits, body);
    var line := p.length.Line();
    assert POST + [] == POST;
    assert p.Header() == [POST, line] && p.Header()[1..] == [line];
    assert Lines([line]) == line + [13, 10] by { OneLine(line); }
    assert |line| == 15 + |digits|;
  }

  /** A scoring request that declares a length of nineteen nines stops the program. */
  lemma NinesCrash(nines: seq<Byte>)
    requires |nines| == 19 && forall i :: 0 <= i < 19 ==> nines[i] == 57
    ensures Parse(Plain(nines, []).Bytes()) == Crash
  {
    hide WrittenLength, ContentLength, FindSeparator, PostAt, UnboundedPostAt, EndWrapsInside, Value, Lines, Plain;
    NinesValue(nines);
    NineteenPlaces();
    PlainHeader(nines, []);
    var p := Plain(nines, []);
    assert p.length.digits == nines by { PlainDigits(nines, []); }
    PostHeader(p);
    PostExactIff(p.Bytes(), 53);
    assert Wrap64(57 + 9_999_999_999_999_999_999) < 57;
  }

  lemma PlainDigits(digits: seq<Byte>, body: seq<Byte>)
    ensures Plain(digits, body).length.digits == digits && Plain(digits, body).body == body
  {}
}
