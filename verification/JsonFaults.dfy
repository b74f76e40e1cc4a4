/** What the reader turns away: every token is told apart from what is none, and a fault at any depth is malformed. */
module JsonFaults {
  import opened JsonSpec
  import opened JsonRoundTrip

  // ---- one token ----

  /** Does not begin with a blank. */
  predicate Bare(s: string) { s != [] ==> s[0] != ' ' && s[0] != '\t' && s[0] != '\r' && s[0] != '\n' }

  lemma AfterBlanks(w: string, s: string)
    requires Blanks(w) && Bare(s)
    ensures SkipWs(w + s) == s
  {
    SkipBlanksAhead(w, s);
    LeftAlone(s);
  }

  /** The character asked for, or malformed. */
  lemma ExpectIff(w: string, s: string, c: char)
    requires Blanks(w) && Bare(s)
    ensures Expect(w + s, c) == if s != [] && s[0] == c then Ok(s[1..], ()) else Malformed
  {
    AfterBlanks(w, s);
  }

  lemma {:induction false} QuoteLeft(s: string)
    ensures FromQuote(s) != [] <==> '"' in s
  {
    if s != [] && s[0] != '"' { QuoteLeft(s[1..]); }
  }

  predicate QuotedText(s: string) { s != [] && s[0] == '"' && '"' in s[1..] }

  lemma StringIff(w: string, s: string)
    requires Blanks(w) && Bare(s)
    ensures ReadStr(w + s).Ok? <==> QuotedText(s)
  {
    AfterBlanks(w, s);
    if s != [] { QuoteLeft(s[1..]); }
  }

  lemma FlagIff(w: string, s: string)
    requires Blanks(w) && Bare(s)
    ensures ReadBool(w + s).Ok? <==> "true" <= s || "false" <= s
  {
    AfterBlanks(w, s);
    assert "true" <= s <==> |s| >= 4 && s[..4] == "true";
    assert "false" <= s <==> |s| >= 5 && s[..5] == "false";
  }

  lemma IntegerIff(w: string, s: string)
    requires Blanks(w) && Bare(s)
    ensures ReadU32(w + s).Ok? <==> s != [] && '0' <= s[0] <= '9'
  {
    AfterBlanks(w, s);
    if s != [] && '0' <= s[0] <= '9' { var o := ReadDigits(s[1..], DigitOf(s[0]) % U32); }
  }

  predicate PlainChar(c: char) { '0' <= c <= '9' || c == '.' }

  /** The letters of an exponent, and the signs that may stand anywhere behind the first of them. */
  predicate PowerChar(c: char) { c == 'e' || c == 'E' || c == '+' || c == '-' }

  lemma {:induction false} PlainRun(t: string, s: string)
    requires forall k :: 0 <= k < |t| ==> PlainChar(t[k])
    ensures AfterNumber(t + s, false) == AfterNumber(s, false)
  {
    if t == [] {
      assert t + s == s;
    } else {
      assert (t + s)[1..] == t[1..] + s;
      PlainRun(t[1..], s);
    }
  }

  lemma {:induction false} PowerRun(t: string, s: string)
    requires forall k :: 0 <= k < |t| ==> PlainChar(t[k]) || PowerChar(t[k])
    ensures AfterNumber(t + s, true) == AfterNumber(s, true)
  {
    if t == [] {
      assert t + s == s;
    } else {
      assert (t + s)[1..] == t[1..] + s;
      PowerRun(t[1..], s);
    }
  }

  predicate IsSign(t: string) { t == "" || t == "+" || t == "-" }

  /** A number without an exponent ends at the first character that is no digit, point or exponent, signs included. */
  lemma NumberIff(w: string, sign: string, t: string, s: string, accepts: string -> bool)
    requires Blanks(w) && IsSign(sign) && (forall k :: 0 <= k < |t| ==> PlainChar(t[k]))
    requires s != [] ==> !PlainChar(s[0]) && s[0] != 'e' && s[0] != 'E'
    requires sign + t == "" ==> Bare(s) && (s != [] ==> !PowerChar(s[0]))
    ensures ReadF32(w + (sign + (t + s)), accepts) ==
              if sign + t == "" then Malformed else Ok(s, ToDecimal(sign + t))
  {
    hide ReadF32, ToDecimal, AfterNumber;
    var r := sign + (t + s);
    SignedFirst(sign, t, s);
    PlainRun(t, s);
    NumberStops(s, false);
    assert r == (sign + t) + s;
    RunRead(w, r, sign + t, s, accepts);
    NoExponent(sign, t);
  }

  lemma NumberStops(s: string, exp: bool)
    requires s != [] ==> !PlainChar(s[0]) && s[0] != 'e' && s[0] != 'E' && (exp ==> !PowerChar(s[0]))
    ensures AfterNumber(s, exp) == s
  {}

  lemma NoExponent(sign: string, t: string)
    requires IsSign(sign) && (forall k :: 0 <= k < |t| ==> PlainChar(t[k]))
    ensures !HasExp(sign + t)
  {}

  lemma RunRead(w: string, r: string, t: string, s: string, accepts: string -> bool)
    requires Blanks(w) && Bare(r) && r == t + s && AfterNumber(DropSign(r), false) == s
    ensures ReadF32(w + r, accepts) ==
              if t == [] || NumberOf(t, accepts).Malformed? then Malformed else Ok(s, NumberOf(t, accepts).value)
  {
    hide AfterNumber, DropSign, NumberOf;
    AfterBlanks(w, r);
    assert r[..|r| - |s|] == t;
  }

  lemma SignedFirst(sign: string, t: string, s: string)
    requires IsSign(sign) && (forall k :: 0 <= k < |t| ==> PlainChar(t[k]))
    requires sign + t == "" ==> Bare(s) && (s != [] ==> !PowerChar(s[0]))
    ensures Bare(sign + (t + s)) && DropSign(sign + (t + s)) == t + s
  {
    var r := sign + (t + s);
    if sign == "" {
      assert r == t + s;
      if t != "" { assert r[0] == t[0]; } else { assert r == s; }
    } else {
      assert r[0] == sign[0] && r[1..] == t + s;
    }
  }

  /** With an exponent the run goes on over signs, and the float library decides on all of it. */
  lemma ExponentIff(w: string, sign: string, t: string, e: char, u: string, s: string, accepts: string -> bool)
    requires Blanks(w) && IsSign(sign) && (forall k :: 0 <= k < |t| ==> PlainChar(t[k])) && (e == 'e' || e == 'E')
    requires forall k :: 0 <= k < |u| ==> PlainChar(u[k]) || PowerChar(u[k])
    requires s != [] ==> !PlainChar(s[0]) && !PowerChar(s[0])
    ensures var text := sign + (t + ([e] + u));
            ReadF32(w + (text + s), accepts) == if accepts(text) then Ok(s, Scientific(text)) else Malformed
  {
    var text, power := sign + (t + ([e] + u)), [e] + (u + s);
    hide ReadF32, ToDecimal, AfterNumber;
    var r := sign + (t + power);
    assert text + s == r;
    PowerFirst(sign, t, power);
    PlainRun(t, power);
    PowerRun(u, s);
    NumberStops(s, true);
    Power(power, e, u + s);
    RunRead(w, r, text, s, accepts);
    assert text[|sign| + |t|] == e;
  }

  lemma Power(power: string, e: char, more: string)
    requires power == [e] + more && (e == 'e' || e == 'E')
    ensures AfterNumber(power, false) == AfterNumber(more, true)
  {
    assert power[0] == e && power[1..] == more;
  }

  lemma PowerFirst(sign: string, t: string, power: string)
    requires IsSign(sign) && (forall k :: 0 <= k < |t| ==> PlainChar(t[k]))
    requires power != [] && (power[0] == 'e' || power[0] == 'E')
    ensures Bare(sign + (t + power)) && DropSign(sign + (t + power)) == t + power
  {
    var r := sign + (t + power);
    if sign == "" {
      assert r == t + power;
      if t != "" { assert r[0] == t[0]; } else { assert r == power; }
    } else {
      assert r[0] == sign[0] && r[1..] == t + power;
    }
  }

  // ---- lists ----

  /** Names, each with a comma behind it, and then something that is neither a name nor the end of the list. */
  function ListText(es: seq<Entry>, w: string, s: string): string {
    if es == [] then w + s else es[0].before + WriteQuoted(es[0].name, es[0].after + ("," + ListText(es[1..], w, s)))
  }

  lemma {:induction false} ListRejected(es: seq<Entry>, w: string, s: string, names: seq<string>)
    requires GoodEntries(es) && Blanks(w) && Bare(s) && !QuotedText(s) && (s != [] ==> s[0] != ']')
    ensures ReadNames(ListText(es, w, s), names) == Malformed
    decreases |es|
  {
    if es == [] {
      AfterBlanks(w, s);
      assert "" + s == s;
      StringIff("", s);
    } else {
      var rest := ListText(es[1..], w, s);
      ReadsEntry(es[0], "," + rest, names);
      CommaSkipped(rest);
      ListRejected(es[1..], w, s, Keep(names, es[0].name));
    }
  }

  lemma CommaSkipped(s: string)
    ensures SkipComma("," + s) == s
  {
    assert ("," + s)[1..] == s;
  }

  // ---- faults ----

  /** A text at which no value of a kind can be read. */
  ghost predicate NoValue(kind: Kind, s: string) {
    match kind
    case NumKind => s != [] ==> !PlainChar(s[0]) && !PowerChar(s[0])
    case IntKind => s != [] ==> !('0' <= s[0] <= '9')
    case TextKind => !QuotedText(s)
    case FlagKind => !("true" <= s) && !("false" <= s)
    case NamesKind => NoList(s)
  }

  ghost predicate NoList(s: string) {
    || (s != [] ==> s[0] != '[')
    || exists es, w, rest ::
         && GoodEntries(es) && Blanks(w) && Bare(rest) && !QuotedText(rest) && (rest != [] ==> rest[0] != ']')
         && s == "[" + ListText(es, w, rest)
  }

  lemma NoListRead(s: string)
    requires Bare(s) && NoList(s)
    ensures ReadKnown(s) == Malformed
  {
    assert "" + s == s;
    ExpectIff("", s, '[');
    if s != [] && s[0] == '[' {
      var es, w, rest :|
        && GoodEntries(es) && Blanks(w) && Bare(rest) && !QuotedText(rest) && (rest != [] ==> rest[0] != ']')
        && s == "[" + ListText(es, w, rest);
      assert s[1..] == ListText(es, w, rest);
      ListRejected(es, w, rest, []);
    }
  }

  lemma NoValueRead(kind: Kind, s: string, accepts: string -> bool)
    requires Bare(s) && NoValue(kind, s)
    ensures ReadLeaf(kind, s, accepts) == Malformed
  {
    hide ReadF32, ReadU32, ReadStr, ReadBool, ReadKnown, NoList;
    assert "" + s == s;
    match kind
    case NumKind =>
      assert "" + ("" + ("" + s)) == s && "" + "" == "";
      NumberIff("", "", "", s, accepts);
    case IntKind => IntegerIff("", s);
    case TextKind => StringIff("", s);
    case FlagKind => FlagIff("", s);
    case NamesKind => NoListRead(s);
  }

  /** The first thing that is wrong in an object: a key, the colon behind it, its value, or something in its section. */
  datatype Fault =
    | NoKey(before: string, s: string)
    | NoColon(before: string, key: string, colon: string, s: string)
    | NoItem(before: string, key: string, colon: string, gap: string, s: string)
    | Within(before: string, key: string, colon: string, gap: string, members: seq<Member>, fault: Fault)

  /** The text of an object from behind its brace: members, each with a comma behind it, and then the fault. */
  function FaultyText(ms: seq<Member>, f: Fault): string
    decreases f, 1, ms
  {
    if ms == [] then FaultText(f) else WriteMember(ms[0], "," + FaultyText(ms[1..], f))
  }

  function FaultText(f: Fault): string
    decreases f, 0
  {
    match f
    case NoKey(before, s) => before + s
    case NoColon(before, key, colon, s) => before + WriteQuoted(key, colon + s)
    case NoItem(before, key, colon, gap, s) => before + WriteQuoted(key, colon + (":" + (gap + s)))
    case Within(before, key, colon, gap, ms, inner) =>
      before + WriteQuoted(key, colon + (":" + (gap + ("{" + FaultyText(ms, inner)))))
  }

  ghost predicate IsFault(f: Fault, level: Level, accepts: string -> bool)
    decreases f
  {
    match f
    case NoKey(before, s) => Blanks(before) && Bare(s) && !QuotedText(s) && (s != [] ==> s[0] != '}')
    case NoColon(before, key, colon, s) =>
      Blanks(before) && NoQuote(key) && Blanks(colon) && Bare(s) && (s != [] ==> s[0] != ':')
    case NoItem(before, key, colon, gap, s) =>
      Blanks(before) && NoQuote(key) && Blanks(colon) && Blanks(gap) && Bare(s) && NoItemAt(Lookup(level, key), s)
    case Within(before, key, colon, gap, ms, inner) =>
      && Blanks(before) && NoQuote(key) && Blanks(colon) && Blanks(gap)
      && var slot := Lookup(level, key);
         slot.Section? && GoodMembers(ms, slot.level, accepts) && IsFault(inner, slot.level, accepts)
  }

  /** No value for a known key: of the wrong kind, or no object where there should be one. */
  ghost predicate NoItemAt(slot: Slot, s: string) {
    match slot
    case Leaf(f) => NoValue(KindOf(f), s)
    case Section(level) => (s != [] ==> s[0] != '{') && (level == Last ==> !("null" <= s))
    case Unknown => false
  }

  lemma NoObjectRead(s: string, level: Level, p: Payload, accepts: string -> bool)
    requires Bare(s) && (s != [] ==> s[0] != '{') && (level == Last ==> !("null" <= s))
    ensures ReadObject(s, p, level, accepts) == Malformed
  {
    assert "" + s == s;
    ExpectIff("", s, '{');
    assert "null" <= s <==> |s| >= 4 && s[..4] == "null";
  }

  lemma NoItemRead(slot: Slot, s: string, p: Payload, accepts: string -> bool)
    requires Bare(s) && NoItemAt(slot, s)
    ensures ReadValue(s, p, slot, accepts) == Malformed
  {
    hide ReadLeaf, ReadObject, NoValue;
    match slot
    case Leaf(f) => NoValueRead(KindOf(f), s, accepts);
    case Section(level) => NoObjectRead(s, level, p, accepts);
  }

  /** A key with its colon and a value that cannot be read. */
  lemma KeyThen(before: string, key: string, colon: string, gap: string, s: string, level: Level, p: Payload,
                accepts: string -> bool)
    requires Blanks(before) && NoQuote(key) && Blanks(colon) && Blanks(gap) && Bare(s)
    requires ReadValue(s, p, Lookup(level, key), accepts) == Malformed
    ensures ReadMembers(before + WriteQuoted(key, colon + (":" + (gap + s))), p, level, accepts) == Malformed
  {
    hide ReadValue, ReadKey, Lookup;
    ReadsKey(before, key, colon, gap, s);
    LeftAlone(s);
    ReadsQuoted(before, key, colon + (":" + (gap + s)));
    QuotedShape(key, colon + (":" + (gap + s)));
  }

  lemma NoKeyRead(before: string, s: string, level: Level, p: Payload, accepts: string -> bool)
    requires Blanks(before) && Bare(s) && !QuotedText(s) && (s != [] ==> s[0] != '}')
    ensures ReadMembers(before + s, p, level, accepts) == Malformed
  {
    AfterBlanks(before, s);
    assert "" + s == s;
    StringIff("", s);
  }

  lemma NoColonRead(before: string, key: string, colon: string, s: string, level: Level, p: Payload,
                    accepts: string -> bool)
    requires Blanks(before) && NoQuote(key) && Blanks(colon) && Bare(s) && (s != [] ==> s[0] != ':')
    ensures ReadMembers(before + WriteQuoted(key, colon + s), p, level, accepts) == Malformed
  {
    var t := WriteQuoted(key, colon + s);
    ReadsQuoted(before, key, colon + s);
    assert "" + t == t;
    ReadsQuoted("", key, colon + s);
    QuotedShape(key, colon + s);
    ExpectIff(colon, s, ':');
    hide SkipWs, ReadStr, Expect;
    assert ReadKey(t) == Malformed;
  }

  /** Whatever members come before it and however deep it is, a fault makes the object malformed. */
  lemma {:induction false} FaultRejected(ms: seq<Member>, f: Fault, level: Level, p: Payload, accepts: string -> bool)
    requires GoodMembers(ms, level, accepts) && IsFault(f, level, accepts)
    ensures ReadMembers(FaultyText(ms, f), p, level, accepts) == Malformed
    decreases f, ms
  {
    hide ReadMembers, ReadValue, GoodMember, MemberWrites, WriteMember;
    if ms != [] {
      var rest := FaultyText(ms[1..], f);
      CommaSkipped(rest);
      CommaEnds(rest);
      ReadsMember(ms[0], level, p, "," + rest, accepts);
      FaultRejected(ms[1..], f, level, PutAll(p, MemberWrites(ms[0], level, accepts)), accepts);
    } else {
      match f
      case NoKey(before, s) => NoKeyRead(before, s, level, p, accepts);
      case NoColon(before, key, colon, s) => NoColonRead(before, key, colon, s, level, p, accepts);
      case NoItem(before, key, colon, gap, s) =>
        NoItemRead(Lookup(level, key), s, p, accepts);
        KeyThen(before, key, colon, gap, s, level, p, accepts);
      case Within(before, key, colon, gap, inner, fault) =>
        var sub := Lookup(level, key).level;
        var entered := if sub == Last then Put(p, HasLast, Flag(true)) else p;
        FaultRejected(inner, fault, sub, entered, accepts);
        FaultySection(FaultyText(inner, fault), sub, p, accepts);
        KeyThen(before, key, colon, gap, "{" + FaultyText(inner, fault), level, p, accepts);
    }
  }

  lemma CommaEnds(s: string)
    ensures Ends("," + s)
  {}

  lemma FaultySection(body: string, level: Level, p: Payload, accepts: string -> bool)
    requires ReadMembers(body, if level == Last then Put(p, HasLast, Flag(true)) else p, level, accepts) == Malformed
    ensures ReadValue("{" + body, p, Section(level), accepts) == Malformed
    ensures ReadObject("{" + body, p, level, accepts) == Malformed
  {
    hide ReadMembers, Put;
    var s := "{" + body;
    assert "" + s == s && s[1..] == body && s[0] == '{';
    ExpectIff("", s, '{');
  }

  /** A document with a fault, or one that is no object at all, is malformed. */
  lemma FaultyDocument(before: string, ms: seq<Member>, f: Fault, accepts: string -> bool)
    requires Blanks(before) && GoodMembers(ms, Top, accepts) && IsFault(f, Top, accepts)
    ensures Parse(before + ("{" + FaultyText(ms, f)), accepts) == Malformed
  {
    var body := FaultyText(ms, f);
    FaultRejected(ms, f, Top, EMPTY, accepts);
    hide ReadMembers, GoodMembers, IsFault;
    assert ("{" + body)[1..] == body;
    ExpectIff(before, "{" + body, '{');
  }

  lemma NoDocument(before: string, s: string, accepts: string -> bool)
    requires Blanks(before) && Bare(s) && (s != [] ==> s[0] != '{')
    ensures Parse(before + s, accepts) == Malformed
  {
    ExpectIff(before, s, '{');
  }
}
