/** The payload reader: a cursor that moves over a buffer and a payload that it fills. */
module Json {
  import opened JsonSpec

  /** The unread part of a buffer. */
  function From(buf: string, i: nat): string
    requires i <= |buf|
  {
    buf[i..]
  }

  lemma Step(buf: string, i: nat)
    requires i < |buf|
    ensures From(buf, i) != [] && From(buf, i)[0] == buf[i] && From(buf, i)[1..] == From(buf, i + 1)
  {}

  lemma Jump(buf: string, i: nat, n: nat)
    requires i <= |buf| && n <= |buf|
    ensures i + n <= |buf| ==> From(buf, i)[n..] == From(buf, i + n) && From(buf, i)[..n] == buf[i..i + n]
    ensures |From(buf, i)| == |buf| - i
  {}

  class Reader {
    const buf: string
    const accepts: string -> bool
    var i: nat
    var p: Payload

    ghost predicate Valid() reads this { i <= |buf| }

    ghost function Unread(): string
      requires Valid()
      reads this
    {
      From(buf, i)
    }

    constructor (buf: string, accepts: string -> bool)
      ensures this.buf == buf && this.accepts == accepts && i == 0 && p == EMPTY && Valid() && Unread() == buf
    {
      this.buf, this.accepts, i, p := buf, accepts, 0, EMPTY;
    }

    method SkipBlanks()
      requires Valid()
      modifies this`i
      ensures Valid() && old(i) <= i && Unread() == SkipWs(old(Unread()))
    {
      while i < |buf|
        invariant Valid() && old(i) <= i && SkipWs(Unread()) == SkipWs(old(Unread()))
      {
        Step(buf, i);
        if !Blank(buf[i]) {
          return;
        }
        i := i + 1;
      }
    }

    method Take(c: char) returns (ok: bool)
      requires Valid()
      modifies this`i
      ensures Valid() && old(i) <= i
      ensures var o := Expect(old(Unread()), c); ok == o.Ok? && (ok ==> Unread() == o.rest && old(i) < i)
    {
      SkipBlanks();
      if i >= |buf| || buf[i] != c {
        return false;
      }
      Step(buf, i);
      i := i + 1;
      return true;
    }

    method ToQuote()
      requires Valid()
      modifies this`i
      ensures Valid() && old(i) <= i && Unread() == FromQuote(old(Unread()))
    {
      while i < |buf| && buf[i] != '"'
        invariant Valid() && old(i) <= i && FromQuote(Unread()) == FromQuote(old(Unread()))
      {
        Step(buf, i);
        i := i + 1;
      }
      if i < |buf| { Step(buf, i); }
    }

    /** A quoted text, taken up to the next quote: keys and values are read alike. */
    method TakeStr() returns (ok: bool, s: string)
      requires Valid()
      modifies this`i
      ensures Valid() && old(i) <= i
      ensures var o := ReadStr(old(Unread()));
              ok == o.Ok? && (ok ==> Unread() == o.rest && s == o.value && old(i) < i)
    {
      hide SkipWs, FromQuote;
      s := "";
      SkipBlanks();
      if i >= |buf| || buf[i] != '"' {
        return false, s;
      }
      Step(buf, i);
      i := i + 1;
      var start := i;
      ToQuote();
      Jump(buf, start, i - start);
      if i >= |buf| {
        return false, s;
      }
      s := buf[start..i];
      Step(buf, i);
      i := i + 1;
      return true, s;
    }

    method TakeBool() returns (ok: bool, b: bool)
      requires Valid()
      modifies this`i
      ensures Valid() && old(i) <= i
      ensures var o := ReadBool(old(Unread())); ok == o.Ok? && (ok ==> Unread() == o.rest && b == o.value)
    {
      hide SkipWs;
      SkipBlanks();
      if i + 4 <= |buf| && buf[i..i + 4] == "true" {
        Jump(buf, i, 4);
        i := i + 4;
        return true, true;
      }
      if i + 5 <= |buf| && buf[i..i + 5] == "false" {
        Jump(buf, i, 5);
        i := i + 5;
        return true, false;
      }
      return false, false;
    }

    method TakeU32() returns (ok: bool, v: nat)
      requires Valid()
      modifies this`i
      ensures Valid() && old(i) <= i
      ensures var o := ReadU32(old(Unread())); ok == o.Ok? && (ok ==> Unread() == o.rest && v == o.value)
    {
      hide SkipWs;
      SkipBlanks();
      v := 0;
      var saw := false;
      ghost var start := i;
      while i < |buf|
        invariant Valid() && start <= i && saw == (start < i)
        invariant ReadDigits(Unread(), v) == ReadDigits(From(buf, start), 0)
      {
        Step(buf, i);
        if !Digit(buf[i]) {
          break;
        }
        v := (v * 10 + DigitOf(buf[i])) % U32;
        saw := true;
        i := i + 1;
      }
      return saw, v;
    }

    /** The run of number characters at the cursor, and whether it holds an exponent. */
    method TakeRun() returns (exp: bool)
      requires Valid()
      modifies this`i
      ensures Valid() && old(i) <= i && Unread() == AfterNumber(old(Unread()), false)
      ensures exp == HasExp(buf[old(i)..i])
    {
      exp := false;
      while i < |buf|
        invariant Valid() && old(i) <= i
        invariant AfterNumber(Unread(), exp) == AfterNumber(old(Unread()), false)
        invariant exp == HasExp(buf[old(i)..i])
      {
        Step(buf, i);
        var c, j := buf[i], i + 1;
        assert buf[old(i)..j] == buf[old(i)..i] + [c];
        if Digit(c) || c == '.' {
          i := j;
        } else if c == 'e' || c == 'E' {
          exp := true;
          i := j;
        } else if Sign(c) && exp {
          i := j;
        } else {
          break;
        }
      }
    }

    method TakeF32() returns (ok: bool, d: Decimal)
      requires Valid()
      modifies this`i
      ensures Valid() && old(i) <= i
      ensures var o := ReadF32(old(Unread()), accepts); ok == o.Ok? && (ok ==> Unread() == o.rest && d == o.value)
    {
      hide AfterNumber, ToDecimal, SkipWs, HasExp;
      d := ZERO;
      SkipBlanks();
      var start := i;
      ghost var r := Unread();
      if i < |buf| && Sign(buf[i]) {
        Step(buf, i);
        i := i + 1;
      }
      ghost var body := i;
      assert Unread() == DropSign(r);
      var exp := TakeRun();
      Jump(buf, start, i - start);
      if i == start {
        return false, d;
      }
      var s := buf[start..i];
      SignIsNoExponent(buf, start, body, i);
      if exp {
        return accepts(s), Scientific(s);
      }
      d := Convert(s);
      return true, d;
    }

    method TakeNested(open: char, close: char)
      requires Valid()
      modifies this`i
      ensures Valid() && old(i) <= i && Unread() == AfterNested(old(Unread()), open, close, 1)
    {
      var depth: nat := 1;
      while i < |buf| && depth > 0
        invariant Valid() && old(i) <= i
        invariant AfterNested(Unread(), open, close, depth) == AfterNested(old(Unread()), open, close, 1)
      {
        Step(buf, i);
        if buf[i] == open {
          depth := depth + 1;
        } else if buf[i] == close {
          depth := depth - 1;
        }
        i := i + 1;
      }
    }

    method Skip()
      requires Valid()
      modifies this`i
      ensures Valid() && old(i) <= i && Unread() == SkipVal(old(Unread()))
    {
      hide SkipWs, FromQuote, AfterNested, AfterScalar;
      SkipBlanks();
      if i >= |buf| {
        return;
      }
      Step(buf, i);
      var c := buf[i];
      if c == '"' {
        i := i + 1;
        ToQuote();
        if i < |buf| {
          Step(buf, i);
          i := i + 1;
        }
      } else if c == '{' || c == '[' {
        i := i + 1;
        TakeNested(c, if c == '{' then '}' else ']');
      } else {
        SkipScalar();
      }
    }

    method SkipScalar()
      requires Valid()
      modifies this`i
      ensures Valid() && old(i) <= i && Unread() == AfterScalar(old(Unread()))
    {
      while i < |buf|
        invariant Valid() && old(i) <= i && AfterScalar(Unread()) == AfterScalar(old(Unread()))
      {
        Step(buf, i);
        if EndsScalar(buf[i]) {
          return;
        }
        i := i + 1;
      }
    }

    method SkipSeparator()
      requires Valid()
      modifies this`i
      ensures Valid() && old(i) <= i && Unread() == SkipComma(old(Unread()))
    {
      SkipBlanks();
      if i < |buf| && buf[i] == ',' {
        Step(buf, i);
        i := i + 1;
      }
    }

    method TakeKnown() returns (ok: bool, names: seq<string>)
      requires Valid()
      modifies this`i
      ensures Valid() && old(i) <= i
      ensures var o := ReadKnown(old(Unread())); ok == o.Ok? && (ok ==> Unread() == o.rest && names == o.value)
    {
      names := [];
      ok := Take('[');
      if !ok {
        return;
      }
      ghost var want := ReadNames(Unread(), []);
      while true
        invariant Valid() && old(i) <= i && ReadNames(Unread(), names) == want
        decreases |buf| - i
      {
        SkipBlanks();
        if i < |buf| && buf[i] == ']' {
          Step(buf, i);
          i := i + 1;
          return true, names;
        }
        var s;
        ok, s := TakeStr();
        if !ok {
          return;
        }
        if |names| < MAX_KNOWN {
          names := names + [s];
        }
        SkipSeparator();
      }
    }

    method TakeLeaf(f: Field) returns (ok: bool)
      requires Valid()
      modifies this
      ensures Valid() && old(i) <= i
      ensures var o := ReadLeaf(KindOf(f), old(Unread()), accepts);
              ok == o.Ok? && (ok ==> Unread() == o.rest && p == Put(old(p), f, o.value))
    {
      hide ReadF32, ReadU32, ReadStr, ReadBool, ReadKnown, Put;
      match KindOf(f)
      case NumKind =>
        var d;
        ok, d := TakeF32();
        if ok { p := Put(p, f, Num(d)); }
      case IntKind =>
        var n;
        ok, n := TakeU32();
        if ok { p := Put(p, f, Int(n)); }
      case TextKind =>
        var s;
        ok, s := TakeStr();
        if ok { p := Put(p, f, Text(s)); }
      case FlagKind =>
        var b;
        ok, b := TakeBool();
        if ok { p := Put(p, f, Flag(b)); }
      case NamesKind =>
        var names;
        ok, names := TakeKnown();
        if ok { p := Put(p, f, Names(names)); }
    }

    method TakeKey() returns (ok: bool, key: string)
      requires Valid()
      modifies this`i
      ensures Valid() && old(i) <= i
      ensures var o := ReadKey(old(Unread()));
              ok == o.Ok? && (ok ==> Unread() == o.rest && key == o.value && old(i) < i)
    {
      ok, key := TakeStr();
      if ok {
        ok := Take(':');
        if ok { SkipBlanks(); }
      }
    }

    method TakeValue(slot: Slot) returns (ok: bool)
      requires Valid()
      modifies this
      ensures Valid() && old(i) <= i
      ensures var o := ReadValue(old(Unread()), old(p), slot, accepts);
              ok == o.Ok? && (ok ==> Unread() == o.rest && p == o.value)
      decreases |buf| - i, 1
    {
      hide ReadLeaf, ReadObject, SkipVal, Put;
      match slot
      case Leaf(f) => ok := TakeLeaf(f);
      case Section(level) => ok := TakeObject(level);
      case Unknown =>
        Skip();
        ok := true;
    }

    /** One object: the whole payload or one of its sections. */
    method TakeObject(level: Level) returns (ok: bool)
      requires Valid()
      modifies this
      ensures Valid() && old(i) <= i
      ensures var o := ReadObject(old(Unread()), old(p), level, accepts);
              ok == o.Ok? && (ok ==> Unread() == o.rest && p == o.value)
      decreases |buf| - i, 0
    {
      hide ReadMembers, Put, Expect;
      if level == Last && i + 4 <= |buf| && buf[i..i + 4] == "null" {
        Jump(buf, i, 4);
        i := i + 4;
        p := Put(p, HasLast, Flag(false));
        return true;
      }
      if i + 4 <= |buf| { Jump(buf, i, 4); }
      ok := Take('{');
      if !ok {
        return;
      }
      if level == Last {
        p := Put(p, HasLast, Flag(true));
      }
      ok := TakeMembers(level);
    }

    /** The loop every object reader runs after the opening brace. */
    method TakeMembers(level: Level) returns (ok: bool)
      requires Valid()
      modifies this
      ensures Valid() && old(i) <= i
      ensures var o := ReadMembers(old(Unread()), old(p), level, accepts);
              ok == o.Ok? && (ok ==> Unread() == o.rest && p == o.value)
      decreases |buf| - i, 0
    {
      hide ReadKey, ReadValue, SkipComma, SkipWs, Put, Lookup;
      while true
        invariant Valid() && old(i) <= i
        invariant ReadMembers(Unread(), p, level, accepts) == ReadMembers(old(Unread()), old(p), level, accepts)
        decreases |buf| - i
      {
        SkipBlanks();
        if i < |buf| && buf[i] == '}' {
          Step(buf, i);
          i := i + 1;
          return true;
        }
        var key;
        ok, key := TakeKey();
        if !ok {
          return;
        }
        ok := TakeValue(Lookup(level, key));
        if !ok {
          return;
        }
        SkipSeparator();
      }
    }
  }

  lemma SignIsNoExponent(buf: string, start: nat, body: nat, end: nat)
    requires start <= body <= end <= |buf| && body <= start + 1
    requires start < body ==> Sign(buf[start])
    ensures HasExp(buf[start..end]) == HasExp(buf[body..end])
  {
    assert buf[start..end] == buf[start..body] + buf[body..end];
  }

  /** The digits of a number without exponent, in 64-bit arithmetic. */
  method Convert(s: string) returns (d: Decimal)
    ensures d == ToDecimal(s)
  {
    var neg, idx := false, 0;
    if |s| > 0 && Sign(s[0]) {
      neg, idx := s[0] == '-', 1;
    }
    var whole: nat := 0;
    assert From(s, idx) == DropSign(s);
    while idx < |s| && s[idx] != '.'
      invariant idx <= |s| && WholePart(From(s, idx), whole) == WholePart(DropSign(s), 0)
    {
      Step(s, idx);
      whole := (whole * 10 + DigitOf(s[idx])) % U64;
      idx := idx + 1;
    }
    var frac: nat, pow: nat := 0, 1;
    if idx < |s| && s[idx] == '.' {
      Step(s, idx);
      idx := idx + 1;
      ghost var start := idx;
      while idx < |s|
        invariant start <= idx <= |s| && FracPart(From(s, idx), frac, pow) == FracPart(From(s, start), 0, 1)
      {
        Step(s, idx);
        frac := (frac * 10 + DigitOf(s[idx])) % U64;
        pow := pow * 10 % U64;
        idx := idx + 1;
      }
    }
    return Plain(neg, whole, frac, pow);
  }

  /** Parses a request body into a payload. */
  method ParsePayload(buf: string, accepts: string -> bool) returns (ok: bool, p: Payload)
    ensures var o := Parse(buf, accepts); ok == o.Ok? && (ok ==> p == o.value)
  {
    var reader := new Reader(buf, accepts);
    ok := reader.TakeObject(Top);
    p := reader.p;
  }
}
