/**
 * Every rendering of a payload parses back to it: any blanks, any order of sections and keys, any keys
 * the reader does not know. A rendering puts what follows it behind itself.
 */
module JsonRoundTrip {
  import opened JsonSpec

  /** A name in a list, with the blanks before and after it. */
  datatype Entry = Entry(before: string, name: string, after: string)

  /** A value as it is written. */
  datatype Item =
    | Number(text: string)
    | Quoted(text: string)
    | Bool(b: bool)
    | List(entries: seq<Entry>, last: string)
    | Null
    | Object(members: seq<Member>, last: string)
    | Scalar(text: string)
    | Nested(open: char, text: string)

  /** A key and its value, with the blanks around the four tokens. */
  datatype Member = Member(before: string, key: string, colon: string, gap: string, item: Item, after: string)

  // ---- writing ----

  function WriteQuoted(t: string, tail: string): string {
    "\"" + (t + ("\"" + tail))
  }

  function WriteEntries(es: seq<Entry>, tail: string): string {
    if es == [] then tail
    else
      es[0].before + WriteQuoted(es[0].name,
        es[0].after + if |es| == 1 then tail else "," + WriteEntries(es[1..], tail))
  }

  function WriteItem(item: Item, tail: string): string
    decreases item, 0
  {
    match item
    case Number(t) => t + tail
    case Quoted(t) => WriteQuoted(t, tail)
    case Bool(b) => (if b then "true" else "false") + tail
    case List(es, last) => "[" + WriteEntries(es, last + ("]" + tail))
    case Null => "null" + tail
    case Object(ms, last) => "{" + WriteMembers(ms, last + ("}" + tail))
    case Scalar(t) => t + tail
    case Nested(open, t) => [open] + (t + tail)
  }

  function WriteMember(m: Member, tail: string): string
    decreases m, 0
  {
    m.before + WriteQuoted(m.key, m.colon + (":" + (m.gap + WriteItem(m.item, m.after + tail))))
  }

  function WriteMembers(ms: seq<Member>, tail: string): string
    decreases ms, 0
  {
    if ms == [] then tail
    else WriteMember(ms[0], if |ms| == 1 then tail else "," + WriteMembers(ms[1..], tail))
  }

  // ---- what may be written ----

  /** Spaces, tabs and line breaks. */
  ghost predicate Blanks(w: string) {
    forall k :: 0 <= k < |w| ==> w[k] == ' ' || w[k] == '\t' || w[k] == '\r' || w[k] == '\n'
  }

  ghost predicate NoQuote(t: string) {
    forall k :: 0 <= k < |t| ==> t[k] != '"'
  }

  ghost predicate AllDigits(t: string) {
    forall k :: 0 <= k < |t| ==> '0' <= t[k] <= '9'
  }

  ghost predicate GoodEntries(es: seq<Entry>) {
    forall k :: 0 <= k < |es| ==> Blanks(es[k].before) && NoQuote(es[k].name) && Blanks(es[k].after)
  }

  /** A text that the number reader takes whole and accepts. */
  predicate NumberText(t: string, accepts: string -> bool) {
    t != [] && AfterNumber(DropSign(t), false) == [] && NumberOf(t, accepts).Ok?
  }

  ghost predicate ScalarText(t: string) {
    && t != [] && !Blanks(t[..1]) && t[0] != '"' && t[0] != '{' && t[0] != '['
    && forall k :: 0 <= k < |t| ==> t[k] != ',' && t[k] != '}' && t[k] != ']'
  }

  /** Closes `depth` brackets exactly at its end. */
  predicate Closes(t: string, open: char, close: char, depth: nat) {
    if t == [] then depth == 0
    else
      && depth > 0
      && Closes(t[1..], open, close, Deeper(t[0], open, close, depth))
  }

  ghost predicate GoodLeaf(item: Item, kind: Kind, accepts: string -> bool) {
    match kind
    case NumKind => item.Number? && NumberText(item.text, accepts)
    case IntKind => item.Number? && item.text != [] && AllDigits(item.text)
    case TextKind => item.Quoted? && NoQuote(item.text)
    case FlagKind => item.Bool?
    case NamesKind => item.List? && GoodEntries(item.entries) && Blanks(item.last)
  }

  /** Values of keys that the reader does not know. */
  ghost predicate GoodExtra(item: Item) {
    match item
    case Quoted(t) => NoQuote(t)
    case Scalar(t) => ScalarText(t)
    case Nested(open, t) => (open == '{' && Closes(t, '{', '}', 1)) || (open == '[' && Closes(t, '[', ']', 1))
    case _ => false
  }

  ghost predicate GoodItem(item: Item, slot: Slot, accepts: string -> bool)
    decreases item, 0
  {
    match slot
    case Leaf(f) => GoodLeaf(item, KindOf(f), accepts)
    case Section(level) =>
      || (item.Null? && level == Last)
      || (item.Object? && Blanks(item.last) && GoodMembers(item.members, level, accepts))
    case Unknown => GoodExtra(item)
  }

  ghost predicate GoodMember(m: Member, level: Level, accepts: string -> bool)
    decreases m, 0
  {
    && Blanks(m.before) && NoQuote(m.key) && Blanks(m.colon) && Blanks(m.gap) && Blanks(m.after)
    && GoodItem(m.item, Lookup(level, m.key), accepts)
  }

  ghost predicate GoodMembers(ms: seq<Member>, level: Level, accepts: string -> bool)
    decreases ms, 0
  {
    ms == [] || (GoodMember(ms[0], level, accepts) && GoodMembers(ms[1..], level, accepts))
  }

  // ---- what it means ----

  type Write = w: (Field, Val) | Fits(KindOf(w.0), w.1) witness (HasLast, Flag(false))

  function NamesOf(es: seq<Entry>): seq<string> {
    seq(|es|, k requires 0 <= k < |es| => es[k].name)
  }

  function FirstKnown(names: seq<string>): seq<string> {
    if |names| <= MAX_KNOWN then names else names[..MAX_KNOWN]
  }

  /** The value of a decimal numeral. */
  function Nat(t: string): nat
    requires AllDigits(t)
  {
    if t == [] then 0 else Nat(t[..|t| - 1]) * 10 + (t[|t| - 1] as int - '0' as int)
  }

  ghost function LeafValue(item: Item, kind: Kind, accepts: string -> bool): (v: Val)
    requires GoodLeaf(item, kind, accepts)
    ensures Fits(kind, v)
  {
    match kind
    case NumKind => Num(NumberOf(item.text, accepts).value)
    case IntKind => Int(Nat(item.text) % U32)
    case TextKind => Text(item.text)
    case FlagKind => Flag(item.b)
    case NamesKind => Names(FirstKnown(NamesOf(item.entries)))
  }

  ghost function ItemWrites(item: Item, slot: Slot, accepts: string -> bool): seq<Write>
    requires GoodItem(item, slot, accepts)
    decreases item, 0
  {
    match slot
    case Leaf(f) => [(f, LeafValue(item, KindOf(f), accepts))]
    case Section(level) =>
      if item.Null? then [(HasLast, Flag(false))]
      else Entering(level) + Writes(item.members, level, accepts)
    case Unknown => []
  }

  ghost function MemberWrites(m: Member, level: Level, accepts: string -> bool): seq<Write>
    requires GoodMember(m, level, accepts)
    decreases m, 0
  {
    ItemWrites(m.item, Lookup(level, m.key), accepts)
  }

  /** The fields the members set, in order. */
  ghost function Writes(ms: seq<Member>, level: Level, accepts: string -> bool): seq<Write>
    requires GoodMembers(ms, level, accepts)
    decreases ms, 0
  {
    if ms == [] then []
    else MemberWrites(ms[0], level, accepts) + Writes(ms[1..], level, accepts)
  }

  function PutAll(p: Payload, ws: seq<Write>): Payload
    decreases |ws|
  {
    if ws == [] then p else PutAll(Put(p, ws[0].0, ws[0].1), ws[1..])
  }

  lemma {:induction false} PutAllConcat(p: Payload, a: seq<Write>, b: seq<Write>)
    ensures PutAll(p, a + b) == PutAll(PutAll(p, a), b)
    decreases |a|
  {
    hide Put;
    if a == [] {
      assert a + b == b;
    } else {
      assert (a + b)[1..] == a[1..] + b;
      PutAllConcat(Put(p, a[0].0, a[0].1), a[1..], b);
    }
  }

  // ---- the lexer on what is written ----

  lemma {:induction false} SkipBlanksAhead(w: string, s: string)
    requires Blanks(w)
    ensures SkipWs(w + s) == SkipWs(s)
  {
    if w == [] {
      assert w + s == s;
    } else {
      assert (w + s)[1..] == w[1..] + s;
      SkipBlanksAhead(w[1..], s);
    }
  }

  /** A text that does not begin with one of the four is left alone. */
  lemma LeftAlone(s: string)
    requires s != [] ==> s[0] != ' ' && s[0] != '\t' && s[0] != '\r' && s[0] != '\n'
    ensures SkipWs(s) == s
  {}

  lemma SkipTwice(s: string)
    ensures SkipWs(SkipWs(s)) == SkipWs(s)
  {}

  lemma {:induction false} QuoteAhead(t: string, s: string)
    requires NoQuote(t) && StartsWith(s, '"')
    ensures FromQuote(t + s) == s
  {
    if t == [] {
      assert t + s == s;
    } else {
      assert (t + s)[1..] == t[1..] + s;
      QuoteAhead(t[1..], s);
    }
  }

  lemma QuotedShape(t: string, tail: string)
    ensures WriteQuoted(t, tail)[0] == '"'
    ensures WriteQuoted(t, tail)[1..] == t + ("\"" + tail)
    ensures (t + ("\"" + tail))[..|t|] == t
    ensures ("\"" + tail)[1..] == tail
  {}

  lemma ReadsQuoted(w: string, t: string, tail: string)
    requires Blanks(w) && NoQuote(t)
    ensures ReadStr(w + WriteQuoted(t, tail)) == Ok(tail, t)
    ensures SkipWs(w + WriteQuoted(t, tail)) == WriteQuoted(t, tail)
  {
    SkipBlanksAhead(w, WriteQuoted(t, tail));
    QuotedShape(t, tail);
    QuoteAhead(t, "\"" + tail);
  }

  lemma Expects(w: string, c: char, tail: string)
    requires Blanks(w) && !Blank(c)
    ensures SkipWs(w + ([c] + tail)) == [c] + tail
    ensures Expect(w + ([c] + tail), c) == Ok(tail, ())
  {
    SkipBlanksAhead(w, [c] + tail);
    assert ([c] + tail)[1..] == tail;
  }

  lemma ReadsKey(w: string, key: string, w1: string, w2: string, s: string)
    requires Blanks(w) && NoQuote(key) && Blanks(w1) && Blanks(w2)
    ensures ReadKey(WriteQuoted(key, w1 + (":" + (w2 + s)))) == Ok(SkipWs(s), key)
  {
    var tail := w1 + (":" + (w2 + s));
    assert "" + WriteQuoted(key, tail) == WriteQuoted(key, tail);
    ReadsQuoted("", key, tail);
    Expects(w1, ':', w2 + s);
    SkipBlanksAhead(w2, s);
  }

  /** After the blanks, what follows a value is a comma or a closing brace. */
  predicate Ends(tail: string) {
    StartsWith(SkipWs(tail), ',') || StartsWith(SkipWs(tail), '}')
  }

  lemma EndsFirst(tail: string)
    requires Ends(tail)
    ensures tail != [] && (Blank(tail[0]) || tail[0] == ',' || tail[0] == '}')
  {}

  lemma EndsAfterBlanks(w: string, tail: string)
    requires Blanks(w) && Ends(tail)
    ensures Ends(w + tail)
  {
    SkipBlanksAhead(w, tail);
  }

  // ---- numbers ----

  predicate NumberChar(c: char) { Digit(c) || c == '.' || c == 'e' || c == 'E' || Sign(c) }

  lemma {:induction false} NumberAhead(t: string, tail: string, exp: bool)
    requires AfterNumber(t, exp) == [] && tail != [] && !NumberChar(tail[0])
    ensures AfterNumber(t + tail, exp) == tail
  {
    if t == [] {
      assert t + tail == tail;
    } else {
      assert (t + tail)[1..] == t[1..] + tail;
      NumberAhead(t[1..], tail, exp || t[0] == 'e' || t[0] == 'E');
    }
  }

  lemma ReadsNumber(t: string, tail: string, accepts: string -> bool)
    requires NumberText(t, accepts) && Ends(tail)
    ensures ReadF32(t + tail, accepts) == Ok(tail, NumberOf(t, accepts).value)
  {
    EndsFirst(tail);
    var r := t + tail;
    NumberStart(t);
    assert r[0] == t[0] && SkipWs(r) == r;
    hide Ends, AfterNumber, NumberOf, SkipWs;
    assert DropSign(r) == DropSign(t) + tail;
    NumberAhead(DropSign(t), tail, false);
    assert r[..|t|] == t;
  }

  lemma NumberStart(t: string)
    requires t != [] && AfterNumber(DropSign(t), false) == []
    ensures NumberChar(t[0])
  {}

  lemma {:induction false} DigitsAhead(t: string, tail: string, v: nat, seen: string)
    requires AllDigits(t) && AllDigits(seen) && v == Nat(seen) % U32 && tail != [] && !Digit(tail[0])
    ensures AllDigits(seen + t) && ReadDigits(t + tail, v) == (tail, Nat(seen + t) % U32)
    decreases |t|
  {
    if t == [] {
      assert t + tail == tail && seen + t == seen;
    } else {
      assert (t + tail)[1..] == t[1..] + tail;
      var seen' := seen + [t[0]];
      assert seen'[..|seen|] == seen;
      assert seen' + t[1..] == seen + t;
      var d := DigitOf(t[0]);
      assert d == t[0] as int - '0' as int;
      ModStep(Nat(seen), d, U32);
      DigitsAhead(t[1..], tail, (v * 10 + d) % U32, seen');
    }
  }

  lemma Multiple(m: int, d: int)
    requires m > 0
    ensures d > 0 ==> m * d >= m
    ensures d < 0 ==> m * d <= -m
  {}

  lemma RemainderUnique(z: int, k: int, b: nat, m: nat)
    requires z == m * k + b && b < m
    ensures z % m == b
  {
    assert m * (k - z / m) == z % m - b;
    Multiple(m, k - z / m);
  }

  /** Reducing a numeral digit by digit is reducing it once. */
  lemma ModStep(x: nat, d: nat, m: nat)
    requires m > 0
    ensures (x % m * 10 + d) % m == (x * 10 + d) % m
  {
    var y := x % m * 10 + d;
    var q, k := x / m, y / m;
    assert x * 10 + d == m * (q * 10) + y;
    assert m * (q * 10) + m * k == m * (q * 10 + k);
    RemainderUnique(x * 10 + d, q * 10 + k, y % m, m);
  }

  lemma NoDigits32()
    ensures Nat("") % U32 == 0
  {}

  lemma ReadsInt(t: string, tail: string)
    requires t != [] && AllDigits(t) && Ends(tail)
    ensures ReadU32(t + tail) == Ok(tail, Nat(t) % U32)
  {
    EndsFirst(tail);
    assert (t + tail)[0] == t[0];
    LeftAlone(t + tail);
    hide Ends, Nat, SkipWs, ReadDigits;
    assert "" + t == t && Nat("") % U32 == 0 by { NoDigits32(); }
    DigitsAhead(t, tail, 0, "");
  }

  /** An integer is reduced modulo 2 to the 32, and a character counts as its byte less that of '0'. */
  lemma IntegersWrap(t: string, tail: string, c: char)
    requires t != [] && AllDigits(t) && Ends(tail) && c as int < 256
    ensures ReadU32(t + tail) == Ok(tail, Nat(t) % 4_294_967_296)
    ensures DigitOf(c) == if c >= '0' then c as int - 48 else c as int + 208
  {
    hide ReadU32, Nat, Ends;
    ReadsInt(t, tail);
  }

  // ---- lists ----

  function Keep(names: seq<string>, t: string): seq<string> {
    if |names| < MAX_KNOWN then names + [t] else names
  }

  /** One entry, and the reader behind the comma or at the closing bracket. */
  lemma ReadsEntry(e: Entry, s: string, names: seq<string>)
    requires Blanks(e.before) && NoQuote(e.name) && Blanks(e.after)
    ensures ReadNames(e.before + WriteQuoted(e.name, e.after + s), names)
         == ReadNames(SkipComma(s), Keep(names, e.name))
  {
    var q := WriteQuoted(e.name, e.after + s);
    ReadsQuoted(e.before, e.name, e.after + s);
    assert "" + q == q;
    ReadsQuoted("", e.name, e.after + s);
    QuotedShape(e.name, e.after + s);
    SkipBlanksAhead(e.after, s);
    assert SkipComma(e.after + s) == SkipComma(s);
  }

  lemma {:induction false} ReadsEntries(es: seq<Entry>, last: string, tail: string, names: seq<string>)
    requires GoodEntries(es) && Blanks(last) && |names| <= MAX_KNOWN
    ensures ReadNames(WriteEntries(es, last + ("]" + tail)), names) == Ok(tail, FirstKnown(names + NamesOf(es)))
    decreases |es|
  {
    var stop := last + ("]" + tail);
    Expects(last, ']', tail);
    if es == [] {
      assert names + NamesOf(es) == names;
    } else {
      var e, s := es[0], if |es| == 1 then stop else "," + WriteEntries(es[1..], stop);
      ReadsEntry(e, s, names);
      KeepIsFirst(names, es);
      ReadsEntries(es[1..], last, tail, Keep(names, e.name));
      if |es| == 1 {
        ReadNamesSkips(stop, Keep(names, e.name));
      } else {
        assert s[1..] == WriteEntries(es[1..], stop);
      }
    }
  }

  lemma ReadNamesSkips(s: string, names: seq<string>)
    requires StartsWith(SkipWs(s), ']')
    ensures ReadNames(SkipComma(s), names) == ReadNames(s, names)
  {
    SkipTwice(s);
  }

  lemma KeepIsFirst(names: seq<string>, es: seq<Entry>)
    requires es != [] && |names| <= MAX_KNOWN
    ensures FirstKnown(Keep(names, es[0].name) + NamesOf(es[1..])) == FirstKnown(names + NamesOf(es))
    ensures |Keep(names, es[0].name)| <= MAX_KNOWN
  {
    assert NamesOf(es) == [es[0].name] + NamesOf(es[1..]);
    assert names + NamesOf(es) == (names + [es[0].name]) + NamesOf(es[1..]);
  }

  // ---- values nobody asked for ----

  lemma {:induction false} NestedShrinks(s: string, open: char, close: char, depth: nat)
    requires s != [] && depth > 0
    ensures |AfterNested(s, open, close, depth)| < |s|
  {}

  /** A nested text is skipped to its end if and only if its brackets, counted everywhere, close there. */
  lemma {:induction false} NestedIff(t: string, tail: string, open: char, close: char, depth: nat)
    requires tail != []
    ensures AfterNested(t + tail, open, close, depth) == tail <==> Closes(t, open, close, depth)
    decreases |t|
  {
    if t == [] {
      assert t + tail == tail;
      if depth > 0 { NestedShrinks(tail, open, close, depth); }
    } else if depth > 0 {
      assert (t + tail)[1..] == t[1..] + tail;
      NestedIff(t[1..], tail, open, close, Deeper(t[0], open, close, depth));
    }
  }

  /** The same for the reader's skip of an object or a list. */
  lemma SkipNestedIff(open: char, t: string, tail: string)
    requires (open == '{' || open == '[') && tail != []
    ensures SkipVal(WriteItem(Nested(open, t), tail)) == tail
       <==> Closes(t, open, if open == '{' then '}' else ']', 1)
  {
    var s := WriteItem(Nested(open, t), tail);
    assert s[0] == open && s[1..] == t + tail;
    NestedIff(t, tail, open, if open == '{' then '}' else ']', 1);
  }

  /** An object with a brace inside a string: the skip stops at that brace. */
  lemma BraceInString(t: string, tail: string)
    requires t == "\"a\":\"}\"}" && tail != []
    ensures !Closes(t, '{', '}', 1) && SkipVal(WriteItem(Nested('{', t), tail)) != tail
  {
    assert t[1..][1..][1..][1..][1..][1..] == "\"}";
    assert !Closes(t[1..][1..][1..][1..][1..][1..], '{', '}', 0);
    assert !Closes(t[1..][1..][1..][1..], '{', '}', 1);
    assert !Closes(t[1..][1..], '{', '}', 1);
    SkipNestedIff('{', t, tail);
  }

  lemma SkipsToBrace(s: string)
    requires s == "{\"a\":\"}\"}}"
    ensures SkipVal(s) == "\"}}"
  {
    var s1, s3, s5, s7 := "\"a\":\"}\"}}", "\":\"}\"}}", "\"}\"}}", "\"}}";
    assert s[1..] == s1 && s1[2..] == s3 && s3[2..] == s5 && s5[1..] == "}" + s7 && ("}" + s7)[1..] == s7;
    assert AfterNested("}" + s7, '{', '}', 1) == s7;
    hide AfterNested;
    NoBrace(s5);
    NoBrace(s3[1..]);
    NoBrace(s3);
    NoBrace(s1[1..]);
    NoBrace(s1);
    assert s1[1..][1..] == s3 && s3[1..][1..] == s5;
  }

  lemma NoBrace(s: string)
    requires s != [] && s[0] != '{' && s[0] != '}'
    ensures AfterNested(s, '{', '}', 1) == AfterNested(s[1..], '{', '}', 1)
  {}

  lemma NoKeyLeft(s: string)
    requires s == "\"}}"
    ensures SkipComma(s) == s && !StartsWith(SkipWs(s), '}') && ReadKey(SkipWs(s)) == Malformed
  {
    assert s[1..] == "}}" && s[1..][1..] == "}" && s[1..][1..][1..] == "";
    assert FromQuote(s[1..][1..]) == "";
    assert FromQuote(s[1..]) == "";
  }

  /** What stops the reader after a skipped value stops the parse. */
  lemma StuckAfterSkip(member: string, key: string, value: string, left: string, accepts: string -> bool)
    requires SkipWs(member) == member && !StartsWith(member, '}') && ReadKey(member) == Ok(value, key)
    requires Lookup(Top, key) == Unknown && SkipVal(value) == left
    requires SkipComma(left) == left && !StartsWith(SkipWs(left), '}') && ReadKey(SkipWs(left)) == Malformed
    ensures Parse("{" + member, accepts) == Malformed
  {
    hide ReadKey, SkipVal, SkipComma, SkipWs, Lookup, Expect, Put;
    assert "" + ("{" + member) == "{" + member;
    Expects("", '{', member);
    assert ReadMembers(left, EMPTY, Top, accepts) == Malformed;
    assert ReadValue(value, EMPTY, Unknown, accepts) == Ok(left, EMPTY);
    assert ReadMembers(member, EMPTY, Top, accepts) == Malformed;
  }

  /** So a well-formed document with such a value under an unknown key is turned away. */
  lemma BraceRejected(value: string, accepts: string -> bool)
    requires value == "{\"a\":\"}\"}}"
    ensures Parse("{" + WriteQuoted("x", ":" + value), accepts) == Malformed
  {
    hide ReadKey, SkipVal, SkipComma, Parse;
    var member := WriteQuoted("x", ":" + value);
    assert "" + (":" + ("" + value)) == ":" + value;
    ReadsKey("", "x", "", "", value);
    assert member[0] == '"' && SkipWs(member) == member && SkipWs(value) == value;
    SkipsToBrace(value);
    NoKeyLeft("\"}}");
    StuckAfterSkip(member, "x", value, "\"}}", accepts);
  }

  /** A quoted text is read back if and only if it holds no quote: there are no escapes. */
  lemma QuotedIff(t: string, tail: string)
    ensures ReadStr(WriteQuoted(t, tail)) == Ok(tail, t) <==> NoQuote(t)
  {
    var s := WriteQuoted(t, tail);
    assert "" + s == s;
    if NoQuote(t) {
      ReadsQuoted("", t, tail);
    } else {
      QuotedShape(t, tail);
      var r := t + ("\"" + tail);
      FirstQuote(t, "\"" + tail);
      assert |FromQuote(r)| > |tail| + 1;
    }
  }

  lemma {:induction false} FirstQuote(t: string, s: string)
    requires !NoQuote(t)
    ensures |FromQuote(t + s)| > |s|
  {
    assert t != [] && (t + s)[1..] == t[1..] + s;
    if t[0] != '"' { FirstQuote(t[1..], s); }
  }

  lemma {:induction false} ScalarAhead(t: string, tail: string)
    requires (forall k :: 0 <= k < |t| ==> t[k] != ',' && t[k] != '}' && t[k] != ']') && Ends(tail)
    ensures AfterScalar(t + tail) == SkipWs(tail)
    decreases |t| + |tail|
  {
    if t == [] {
      assert t + tail == tail;
      if Blank(tail[0]) { ScalarAhead("", tail[1..]); assert "" + tail[1..] == tail[1..]; }
    } else {
      assert (t + tail)[1..] == t[1..] + tail;
      ScalarAhead(t[1..], tail);
    }
  }

  lemma SkipsExtra(item: Item, tail: string)
    requires GoodExtra(item) && Ends(tail)
    ensures SkipWs(SkipVal(WriteItem(item, tail))) == SkipWs(tail)
  {
    match item
    case Quoted(t) => SkipsQuoted(t, tail);
    case Scalar(t) => SkipsScalar(t, tail);
    case Nested(open, t) =>
      EndsFirst(tail);
      SkipNestedIff(open, t, tail);
  }

  lemma SkipsQuoted(t: string, tail: string)
    requires NoQuote(t)
    ensures SkipVal(WriteQuoted(t, tail)) == tail
  {
    hide FromQuote;
    QuotedShape(t, tail);
    QuoteAhead(t, "\"" + tail);
  }

  lemma SkipsScalar(t: string, tail: string)
    requires ScalarText(t) && Ends(tail)
    ensures SkipWs(SkipVal(t + tail)) == SkipWs(tail)
  {
    hide AfterScalar;
    var s := t + tail;
    assert s[0] == t[0] == t[..1][0];
    LeftAlone(s);
    ScalarAhead(t, tail);
    SkipTwice(tail);
  }

  /** A scalar ends at the first comma or closing bracket, of either shape. */
  lemma {:induction false} ScalarStops(t: string, c: char, tail: string)
    requires forall k :: 0 <= k < |t| ==> t[k] != ',' && t[k] != '}' && t[k] != ']'
    requires c == ',' || c == '}' || c == ']'
    ensures AfterScalar(t + ([c] + tail)) == [c] + tail
  {
    if t == [] {
      assert t + ([c] + tail) == [c] + tail;
    } else {
      assert (t + ([c] + tail))[1..] == t[1..] + ([c] + tail);
      ScalarStops(t[1..], c, tail);
    }
  }

  /** A value whose own brackets appear nowhere inside it closes at its end. */
  lemma {:induction false} PlainCloses(t: string, open: char, close: char)
    requires open != close && forall k :: 0 <= k < |t| ==> t[k] != open && t[k] != close
    ensures Closes(t + [close], open, close, 1)
  {
    if t == [] {
      var s := t + [close];
      assert s == [close] && s[1..] == [];
    } else {
      assert (t + [close])[1..] == t[1..] + [close];
      PlainCloses(t[1..], open, close);
    }
  }

  /** So an object or a list without inner brackets of its shape is skipped to its end. */
  lemma SkipsPlain(t: string, tail: string)
    requires tail != []
    ensures (forall k :: 0 <= k < |t| ==> t[k] != '{' && t[k] != '}') ==> SkipVal("{" + (t + "}" + tail)) == tail
    ensures (forall k :: 0 <= k < |t| ==> t[k] != '[' && t[k] != ']') ==> SkipVal("[" + (t + "]" + tail)) == tail
  {
    if forall k :: 0 <= k < |t| ==> t[k] != '{' && t[k] != '}' {
      PlainCloses(t, '{', '}');
      SkipNestedIff('{', t + "}", tail);
    }
    if forall k :: 0 <= k < |t| ==> t[k] != '[' && t[k] != ']' {
      PlainCloses(t, '[', ']');
      SkipNestedIff('[', t + "]", tail);
    }
  }

  /** Between members a comma is skipped, and its absence is passed over. */
  lemma CommaOptional(w: string, c: char, s: string)
    requires Blanks(w) && !Blanks([c])
    ensures SkipComma(w + ("," + s)) == s
    ensures c != ',' ==> SkipComma(w + ([c] + s)) == [c] + s
  {
    SkipBlanksAhead(w, "," + s);
    SkipBlanksAhead(w, [c] + s);
    assert ("," + s)[1..] == s;
    LeftAlone([c] + s);
  }

  // ---- the whole document ----

  lemma ReadsBool(b: bool, tail: string)
    ensures ReadBool(WriteItem(Bool(b), tail)) == Ok(tail, b)
  {
    var s := WriteItem(Bool(b), tail);
    if b {
      assert s[0] == 't' && s[..4] == "true" && s[4..] == tail;
    } else {
      assert s[0] == 'f' && s[..5] == "false" && s[5..] == tail;
    }
  }

  lemma ReadsList(es: seq<Entry>, last: string, tail: string)
    requires GoodEntries(es) && Blanks(last)
    ensures ReadKnown(WriteItem(List(es, last), tail)) == Ok(tail, FirstKnown(NamesOf(es)))
  {
    var body := WriteEntries(es, last + ("]" + tail));
    assert "" + ("[" + body) == "[" + body;
    Expects("", '[', body);
    ReadsEntries(es, last, tail, []);
    assert [] + NamesOf(es) == NamesOf(es);
  }

  lemma ReadsLeaf(item: Item, kind: Kind, tail: string, accepts: string -> bool)
    requires GoodLeaf(item, kind, accepts) && Ends(tail)
    ensures ReadLeaf(kind, WriteItem(item, tail), accepts) == Ok(tail, LeafValue(item, kind, accepts))
  {
    hide ReadF32, ReadU32, ReadStr, ReadBool, ReadKnown, NumberText, Ends;
    match kind
    case NumKind => ReadsNumber(item.text, tail, accepts);
    case IntKind => ReadsInt(item.text, tail);
    case TextKind =>
      assert "" + WriteQuoted(item.text, tail) == WriteQuoted(item.text, tail);
      ReadsQuoted("", item.text, tail);
    case FlagKind => ReadsBool(item.b, tail);
    case NamesKind => ReadsList(item.entries, item.last, tail);
  }

  /** No value starts with a blank. */
  lemma ItemStart(item: Item, slot: Slot, tail: string, accepts: string -> bool)
    requires GoodItem(item, slot, accepts)
    ensures SkipWs(WriteItem(item, tail)) == WriteItem(item, tail)
  {
    var s := WriteItem(item, tail);
    if item.Number? && slot.Leaf? && KindOf(slot.field) == NumKind { NumberStart(item.text); }
    assert s != [] && !Blank(s[0]);
  }

  /** What reading a value comes to: its writes are made and the reader stands before what follows. */
  ghost predicate Reads(o: Out<Payload>, p: Payload, ws: seq<Write>, tail: string) {
    o.Ok? && o.value == PutAll(p, ws) && SkipWs(o.rest) == SkipWs(tail)
  }

  lemma {:induction false} ReadsItem(item: Item, slot: Slot, p: Payload, tail: string, accepts: string -> bool)
    requires GoodItem(item, slot, accepts) && Ends(tail)
    ensures Reads(ReadValue(WriteItem(item, tail), p, slot, accepts), p, ItemWrites(item, slot, accepts), tail)
    decreases item, 0
  {
    match slot
    case Leaf(f) => ReadsLeaf(item, KindOf(f), tail, accepts);
    case Section(level) => ReadsSection(item, level, p, tail, accepts);
    case Unknown => SkipsExtra(item, tail);
  }

  lemma {:induction false} ReadsSection(item: Item, level: Level, p: Payload, tail: string, accepts: string -> bool)
    requires GoodItem(item, Section(level), accepts)
    ensures ReadObject(WriteItem(item, tail), p, level, accepts)
         == Ok(tail, PutAll(p, ItemWrites(item, Section(level), accepts)))
    decreases item, -1
  {
    if item.Null? {
      var s := WriteItem(item, tail);
      assert s[..4] == "null" && s[4..] == tail;
    } else {
      ReadsBody(item.members, level, item.last, p, tail, accepts);
    }
  }

  ghost function Entering(level: Level): seq<Write> {
    if level == Last then [(HasLast, Flag(true))] else []
  }

  lemma {:induction false} ReadsBody(ms: seq<Member>, level: Level, last: string, p: Payload, tail: string,
                                     accepts: string -> bool)
    requires GoodMembers(ms, level, accepts) && Blanks(last)
    ensures ReadObject("{" + WriteMembers(ms, last + ("}" + tail)), p, level, accepts)
         == Ok(tail, PutAll(p, Entering(level) + Writes(ms, level, accepts)))
    decreases ms, 1
  {
    hide GoodMembers, WriteMembers, Writes, ReadMembers, SkipWs, Expect;
    var body := WriteMembers(ms, last + ("}" + tail));
    var s := "{" + body;
    assert "" + s == s;
    Expects("", '{', body);
    assert s[0] == '{';
    ReadsMembers(ms, level, last, tail, PutAll(p, Entering(level)), accepts);
    PutAllConcat(p, Entering(level), Writes(ms, level, accepts));
  }

  /** One member, and the reader behind the comma or at the closing brace. */
  lemma {:induction false} ReadsMember(m: Member, level: Level, p: Payload, tail: string, accepts: string -> bool)
    requires GoodMember(m, level, accepts) && Ends(tail)
    ensures ReadMembers(WriteMember(m, tail), p, level, accepts)
         == ReadMembers(SkipComma(tail), PutAll(p, MemberWrites(m, level, accepts)), level, accepts)
    decreases m, 0
  {
    var slot := Lookup(level, m.key);
    var value := WriteItem(m.item, m.after + tail);
    EndsAfterBlanks(m.after, tail);
    ReadsItem(m.item, slot, p, m.after + tail, accepts);
    ItemStart(m.item, slot, m.after + tail, accepts);
    ReadsKey(m.before, m.key, m.colon, m.gap, value);
    ReadsQuoted(m.before, m.key, m.colon + (":" + (m.gap + value)));
    SkipBlanksAhead(m.after, tail);
  }

  lemma {:induction false} ReadsMembers(ms: seq<Member>, level: Level, last: string, tail: string, p: Payload,
                                        accepts: string -> bool)
    requires GoodMembers(ms, level, accepts) && Blanks(last)
    ensures ReadMembers(WriteMembers(ms, last + ("}" + tail)), p, level, accepts)
         == Ok(tail, PutAll(p, Writes(ms, level, accepts)))
    decreases ms, 0
  {
    var stop := last + ("}" + tail);
    Expects(last, '}', tail);
    if ms != [] {
      var m, s := ms[0], if |ms| == 1 then stop else "," + WriteMembers(ms[1..], stop);
      ReadsMember(m, level, p, s, accepts);
      var ws := MemberWrites(m, level, accepts);
      PutAllConcat(p, ws, Writes(ms[1..], level, accepts));
      ReadsMembers(ms[1..], level, last, tail, PutAll(p, ws), accepts);
      if |ms| > 1 {
        assert s[1..] == WriteMembers(ms[1..], stop);
      }
    }
  }

  // ---- the payload that comes back ----

  /** The value a sequence of writes leaves in a field. */
  function LastWrite(ws: seq<Write>, f: Field, was: Val): Val {
    if ws == [] then was
    else
      var w := ws[|ws| - 1];
      if w.0 == f then w.1 else LastWrite(ws[..|ws| - 1], f, was)
  }

  lemma {:induction false} LastWriteWins(p: Payload, ws: seq<Write>, f: Field)
    ensures Get(PutAll(p, ws), f) == LastWrite(ws, f, Get(p, f))
    decreases |ws|
  {
    if ws != [] {
      var front, w := ws[..|ws| - 1], ws[|ws| - 1];
      assert ws == front + [w];
      PutAllConcat(p, front, [w]);
      var q := PutAll(p, front);
      assert PutAll(q, [w]) == Put(q, w.0, w.1);
      LastWriteWins(p, front, f);
    }
  }

  ghost predicate SameFields(p: Payload, q: Payload) {
    forall f :: Get(p, f) == Get(q, f)
  }

  lemma SameField(p: Payload, q: Payload, f: Field)
    requires SameFields(p, q)
    ensures Get(p, f) == Get(q, f)
  {}

  lemma SameFieldsEqual(p: Payload, q: Payload)
    requires SameFields(p, q)
    ensures p == q
  {
    hide SameFields;
    assert p.amount == q.amount by { SameField(p, q, Amount); }
    assert p.installments == q.installments by { SameField(p, q, Installments); }
    assert p.requestedAt == q.requestedAt by { SameField(p, q, RequestedAt); }
    assert p.avgAmount == q.avgAmount by { SameField(p, q, AvgAmount); }
    assert p.txCount24h == q.txCount24h by { SameField(p, q, TxCount24h); }
    assert p.known == q.known by { SameField(p, q, Known); }
    assert p.merchantId == q.merchantId by { SameField(p, q, MerchantId); }
    assert p.mcc == q.mcc by { SameField(p, q, Mcc); }
    assert p.merchantAvgAmount == q.merchantAvgAmount by { SameField(p, q, MerchantAvgAmount); }
    assert p.isOnline == q.isOnline by { SameField(p, q, IsOnline); }
    assert p.cardPresent == q.cardPresent by { SameField(p, q, CardPresent); }
    assert p.kmFromHome == q.kmFromHome by { SameField(p, q, KmFromHome); }
    assert p.hasLast == q.hasLast by { SameField(p, q, HasLast); }
    assert p.lastTimestamp == q.lastTimestamp by { SameField(p, q, LastTimestamp); }
    assert p.lastKmFromCurrent == q.lastKmFromCurrent by { SameField(p, q, LastKmFromCurrent); }
  }

  /** The text of a whole document: blanks, the object and whatever follows it. */
  function Document(before: string, ms: seq<Member>, last: string, tail: string): string {
    before + WriteItem(Object(ms, last), tail)
  }

  /** A document parses to exactly the payload whose every field holds its last write, or its default. */
  lemma DocumentRoundTrip(before: string, ms: seq<Member>, last: string, tail: string, p: Payload,
                          accepts: string -> bool)
    requires Blanks(before) && Blanks(last) && GoodMembers(ms, Top, accepts)
    ensures var ws := Writes(ms, Top, accepts);
            Parse(Document(before, ms, last, tail), accepts) == Ok(tail, p)
            <==> forall f :: Get(p, f) == LastWrite(ws, f, Get(EMPTY, f))
  {
    var ws := Writes(ms, Top, accepts);
    var got := PutAll(EMPTY, ws);
    ParsesDocument(before, ms, last, tail, accepts);
    hide GoodMembers, Writes, Parse, PutAll, LastWrite, Get;
    forall f ensures Get(got, f) == LastWrite(ws, f, Get(EMPTY, f)) { LastWriteWins(EMPTY, ws, f); }
    if forall f :: Get(p, f) == LastWrite(ws, f, Get(EMPTY, f)) {
      assert SameFields(p, got);
      SameFieldsEqual(p, got);
    }
  }

  lemma ParsesDocument(before: string, ms: seq<Member>, last: string, tail: string, accepts: string -> bool)
    requires Blanks(before) && Blanks(last) && GoodMembers(ms, Top, accepts)
    ensures Parse(Document(before, ms, last, tail), accepts) == Ok(tail, PutAll(EMPTY, Writes(ms, Top, accepts)))
  {
    hide GoodMembers, Writes, WriteMembers, ReadMembers;
    var ws := Writes(ms, Top, accepts);
    var body := WriteMembers(ms, last + ("}" + tail));
    ReadsBody(ms, Top, last, EMPTY, tail, accepts);
    Expects(before, '{', body);
    assert "" + ("{" + body) == "{" + body;
    Expects("", '{', body);
    assert Entering(Top) + ws == ws;
  }

  /** Every write agrees with the payload, and every field that is not at its default is written. */
  ghost predicate Describes(ws: seq<Write>, p: Payload) {
    && (forall k :: 0 <= k < |ws| ==> ws[k].1 == Get(p, ws[k].0))
    && (forall f :: Get(p, f) == Get(EMPTY, f) || exists k :: 0 <= k < |ws| && ws[k].0 == f)
  }

  lemma {:induction false} LastWriteAgrees(ws: seq<Write>, p: Payload, f: Field, was: Val)
    requires forall k :: 0 <= k < |ws| ==> ws[k].1 == Get(p, ws[k].0)
    requires Get(p, f) == was || exists k :: 0 <= k < |ws| && ws[k].0 == f
    ensures LastWrite(ws, f, was) == Get(p, f)
    decreases |ws|
  {
    if ws != [] {
      var m := |ws| - 1;
      if ws[m].0 != f {
        assert Get(p, f) == was || exists k :: 0 <= k < m && ws[..m][k].0 == f by {
          if k :| 0 <= k < |ws| && ws[k].0 == f { assert ws[..m][k].0 == f; }
        }
        LastWriteAgrees(ws[..m], p, f, was);
      }
    }
  }

  /** Every rendering of a payload, in any order and with any extra keys, parses back to it. */
  lemma ParsesBack(before: string, ms: seq<Member>, last: string, tail: string, p: Payload, accepts: string -> bool)
    requires Blanks(before) && Blanks(last) && GoodMembers(ms, Top, accepts)
    requires Describes(Writes(ms, Top, accepts), p)
    ensures Parse(Document(before, ms, last, tail), accepts) == Ok(tail, p)
  {
    hide GoodMembers, Writes, Parse, Get, LastWrite;
    var ws := Writes(ms, Top, accepts);
    forall f ensures Get(p, f) == LastWrite(ws, f, Get(EMPTY, f)) {
      LastWriteAgrees(ws, p, f, Get(EMPTY, f));
    }
    DocumentRoundTrip(before, ms, last, tail, p, accepts);
  }

  // ---- the payload by name ----

  /** A document with one section that holds one key. */
  function PathText(section: string, key: string, item: Item): string {
    Document("", [OneMember(section, Object([OneMember(key, item)], ""))], "", "")
  }

  function OneMember(key: string, item: Item): Member { Member("", key, "", "", item, "") }

  /** Such a document writes its one field, and what entering the section writes. */
  lemma AtPath(section: string, key: string, item: Item, level: Level, f: Field, accepts: string -> bool)
    requires NoQuote(section) && NoQuote(key) && Lookup(Top, section) == Section(level) && Lookup(level, key) == Leaf(f)
    requires GoodLeaf(item, KindOf(f), accepts)
    ensures Parse(PathText(section, key, item), accepts) ==
              Ok("", Put(PutAll(EMPTY, Entering(level)), f, LeafValue(item, KindOf(f), accepts)))
  {
    hide Parse, Lookup, Put, GoodLeaf, LeafValue;
    var inner, w := OneMember(key, item), (f, LeafValue(item, KindOf(f), accepts));
    var outer := OneMember(section, Object([inner], ""));
    OneWrite(inner, level, w, accepts);
    assert GoodItem(outer.item, Section(level), accepts);
    assert ItemWrites(outer.item, Section(level), accepts) == Entering(level) + [w];
    assert [outer][1..] == [] && Writes([outer], Top, accepts) == Entering(level) + [w];
    ParsesDocument("", [outer], "", "", accepts);
    PutAllConcat(EMPTY, Entering(level), [w]);
    assert [w][1..] == [];
  }

  lemma OneWrite(m: Member, level: Level, w: Write, accepts: string -> bool)
    requires GoodMember(m, level, accepts) && MemberWrites(m, level, accepts) == [w]
    ensures GoodMembers([m], level, accepts) && Writes([m], level, accepts) == [w]
  {
    assert [m][1..] == [];
  }

  /** Each key, in the section of its name, sets the field of its own name and no other. */
  lemma TransactionFields(num: string, digits: string, text: string, accepts: string -> bool)
    requires NumberText(num, accepts) && digits != [] && AllDigits(digits) && NoQuote(text)
    ensures Parse(PathText("transaction", "amount", Number(num)), accepts)
         == Ok("", EMPTY.(amount := NumberOf(num, accepts).value))
    ensures Parse(PathText("transaction", "installments", Number(digits)), accepts)
         == Ok("", EMPTY.(installments := Nat(digits) % 4_294_967_296))
    ensures Parse(PathText("transaction", "requested_at", Quoted(text)), accepts) == Ok("", EMPTY.(requestedAt := text))
  {
    hide Parse, NumberText, NumberOf, Nat, AllDigits, PathText;
    AtPath("transaction", "amount", Number(num), Transaction, Amount, accepts);
    AtPath("transaction", "installments", Number(digits), Transaction, Installments, accepts);
    AtPath("transaction", "requested_at", Quoted(text), Transaction, RequestedAt, accepts);
  }

  lemma CustomerFields(num: string, digits: string, es: seq<Entry>, accepts: string -> bool)
    requires NumberText(num, accepts) && digits != [] && AllDigits(digits) && GoodEntries(es)
    ensures Parse(PathText("customer", "avg_amount", Number(num)), accepts)
         == Ok("", EMPTY.(avgAmount := NumberOf(num, accepts).value))
    ensures Parse(PathText("customer", "tx_count_24h", Number(digits)), accepts)
         == Ok("", EMPTY.(txCount24h := Nat(digits) % 4_294_967_296))
    ensures Parse(PathText("customer", "known_merchants", List(es, "")), accepts)
         == Ok("", EMPTY.(known := FirstKnown(NamesOf(es))))
  {
    hide Parse, NumberText, NumberOf, Nat, AllDigits, PathText, GoodEntries, FirstKnown, NamesOf;
    AtPath("customer", "avg_amount", Number(num), Customer, AvgAmount, accepts);
    AtPath("customer", "tx_count_24h", Number(digits), Customer, TxCount24h, accepts);
    AtPath("customer", "known_merchants", List(es, ""), Customer, Known, accepts);
  }

  lemma MerchantFields(num: string, text: string, accepts: string -> bool)
    requires NumberText(num, accepts) && NoQuote(text)
    ensures Parse(PathText("merchant", "id", Quoted(text)), accepts) == Ok("", EMPTY.(merchantId := text))
    ensures Parse(PathText("merchant", "mcc", Quoted(text)), accepts) == Ok("", EMPTY.(mcc := text))
    ensures Parse(PathText("merchant", "avg_amount", Number(num)), accepts)
         == Ok("", EMPTY.(merchantAvgAmount := NumberOf(num, accepts).value))
  {
    hide Parse, NumberText, NumberOf, PathText;
    AtPath("merchant", "id", Quoted(text), Merchant, MerchantId, accepts);
    AtPath("merchant", "mcc", Quoted(text), Merchant, Mcc, accepts);
    AtPath("merchant", "avg_amount", Number(num), Merchant, MerchantAvgAmount, accepts);
  }

  lemma TerminalFields(num: string, b: bool, accepts: string -> bool)
    requires NumberText(num, accepts)
    ensures Parse(PathText("terminal", "is_online", Bool(b)), accepts) == Ok("", EMPTY.(isOnline := b))
    ensures Parse(PathText("terminal", "card_present", Bool(b)), accepts) == Ok("", EMPTY.(cardPresent := b))
    ensures Parse(PathText("terminal", "km_from_home", Number(num)), accepts)
         == Ok("", EMPTY.(kmFromHome := NumberOf(num, accepts).value))
  {
    hide Parse, NumberText, NumberOf, PathText;
    AtPath("terminal", "is_online", Bool(b), Terminal, IsOnline, accepts);
    AtPath("terminal", "card_present", Bool(b), Terminal, CardPresent, accepts);
    AtPath("terminal", "km_from_home", Number(num), Terminal, KmFromHome, accepts);
  }

  /** A last transaction is there as soon as its object is. */
  lemma LastFields(num: string, text: string, accepts: string -> bool)
    requires NumberText(num, accepts) && NoQuote(text)
    ensures Parse(PathText("last_transaction", "timestamp", Quoted(text)), accepts)
         == Ok("", EMPTY.(hasLast := true, lastTimestamp := text))
    ensures Parse(PathText("last_transaction", "km_from_current", Number(num)), accepts)
         == Ok("", EMPTY.(hasLast := true, lastKmFromCurrent := NumberOf(num, accepts).value))
  {
    hide Parse, NumberText, NumberOf, PathText;
    assert Entering(Last)[1..] == [];
    AtPath("last_transaction", "timestamp", Quoted(text), Last, LastTimestamp, accepts);
    AtPath("last_transaction", "km_from_current", Number(num), Last, LastKmFromCurrent, accepts);
  }

  /** A payload that sets nothing: zeros, empty texts, no merchants, no flags and no last transaction. */
  lemma EmptyPayload(w: string, tail: string, accepts: string -> bool)
    requires Blanks(w)
    ensures Parse("{" + (w + ("}" + tail)), accepts) == Ok(tail, Payload(
              Plain(false, 0, 0, 1), 0, "", Plain(false, 0, 0, 1), 0, [], "", "", Plain(false, 0, 0, 1),
              false, false, Plain(false, 0, 0, 1), false, "", Plain(false, 0, 0, 1)))
  {
    var body := w + ("}" + tail);
    assert "" + ("{" + body) == "{" + body;
    Expects("", '{', body);
    Expects(w, '}', tail);
    assert ("}" + tail)[1..] == tail;
    assert ReadMembers(body, EMPTY, Top, accepts) == Ok(tail, EMPTY);
  }

  /** Of a list of names exactly the first sixteen are kept. */
  lemma SixteenNames(es: seq<Entry>, last: string, tail: string)
    requires GoodEntries(es) && Blanks(last)
    ensures ReadKnown(WriteItem(List(es, last), tail)) ==
              Ok(tail, if |es| <= 16 then NamesOf(es) else NamesOf(es)[..16])
  {
    hide ReadKnown, WriteItem;
    ReadsList(es, last, tail);
  }
}
