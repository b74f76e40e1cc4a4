/** A document for every payload: numerals, and the encoder that the parser inverts. */
module JsonEncode {
  import opened JsonSpec
  import opened JsonRoundTrip

  // ---- numerals ----

  function Pow10(n: nat): (r: nat)
    ensures r > 0
  {
    if n == 0 then 1 else 10 * Pow10(n - 1)
  }

  lemma NatNext(seen: string, c: char)
    requires AllDigits(seen) && Digit(c)
    ensures AllDigits(seen + [c]) && Nat(seen + [c]) == Nat(seen) * 10 + DigitOf(c)
  {
    var t := seen + [c];
    assert t[..|t| - 1] == seen && t[|t| - 1] == c;
    DigitIs(c);
  }

  lemma DigitIs(c: char)
    requires Digit(c)
    ensures DigitOf(c) == c as int - '0' as int
  {}

  lemma DigitsSplit(t: string)
    requires AllDigits(t) && t != []
    ensures Digit(t[0]) && AllDigits(t[1..])
  {}

  lemma {:induction false} WholeAhead(seen: string, t: string, s: string)
    requires AllDigits(seen) && AllDigits(t) && (s == [] || s[0] == '.')
    ensures AllDigits(seen + t) && WholePart(t + s, Nat(seen) % U64) == (s, Nat(seen + t) % U64)
    decreases |t|
  {
    hide Nat, DigitOf, AllDigits;
    if t == [] {
      assert t + s == s && seen + t == seen;
    } else {
      DigitsSplit(t);
      var seen' := seen + [t[0]];
      assert seen' + t[1..] == seen + t && (t + s)[1..] == t[1..] + s;
      NatNext(seen, t[0]);
      ModStep(Nat(seen), DigitOf(t[0]), U64);
      WholeAhead(seen', t[1..], s);
    }
  }

  lemma {:induction false} FracAhead(seen: string, t: string)
    requires AllDigits(seen) && AllDigits(t)
    ensures AllDigits(seen + t)
    ensures FracPart(t, Nat(seen) % U64, Pow10(|seen|) % U64) == (Nat(seen + t) % U64, Pow10(|seen + t|) % U64)
    decreases |t|
  {
    hide Nat, DigitOf, AllDigits;
    if t == [] {
      assert seen + t == seen;
    } else {
      DigitsSplit(t);
      var seen' := seen + [t[0]];
      assert seen' + t[1..] == seen + t;
      NatNext(seen, t[0]);
      ModStep(Nat(seen), DigitOf(t[0]), U64);
      ModStep(Pow10(|seen|), 0, U64);
      FracAhead(seen', t[1..]);
    }
  }

  function Sgn(neg: bool): string { if neg then "-" else "" }

  /** A numeral with an optional fraction; an empty fraction is written without the point. */
  function Numeral(neg: bool, a: string, b: string): string {
    Sgn(neg) + (a + if b == [] then [] else "." + b)
  }

  /** The value of a numeral: its parts, each modulo 2 to the 64. */
  function NumeralDecimal(neg: bool, a: string, b: string): Decimal
    requires AllDigits(a) && AllDigits(b)
  {
    Plain(neg, Nat(a) % U64, Nat(b) % U64, Pow10(|b|) % U64)
  }

  lemma NumeralValue(neg: bool, a: string, b: string)
    requires a != [] && AllDigits(a) && AllDigits(b)
    ensures ToDecimal(Numeral(neg, a, b)) == NumeralDecimal(neg, a, b)
  {
    hide Nat, Pow10, WholePart, FracPart;
    var t := Numeral(neg, a, b);
    var s := if b == [] then [] else "." + b;
    SignDropped(neg, a, b, s);
    assert "" + a == a && "" + b == b;
    NoDigits();
    WholeAhead("", a, s);
    FracAhead("", b);
    if b != [] { assert s[1..] == b; }
  }

  /** The number read is the number written if and only if its parts and the power under the fraction fit 64 bits. */
  lemma NumeralExactIff(neg: bool, a: string, b: string)
    requires a != [] && AllDigits(a) && AllDigits(b)
    ensures ToDecimal(Numeral(neg, a, b)) == Plain(neg, Nat(a), Nat(b), Pow10(|b|))
       <==> Nat(a) < U64 && Nat(b) < U64 && Pow10(|b|) < U64
  {
    hide Nat, Pow10, AllDigits, ToDecimal, Numeral;
    NumeralValue(neg, a, b);
    FitsIff(Nat(a));
    FitsIff(Nat(b));
    FitsIff(Pow10(|b|));
  }

  lemma FitsIff(x: nat)
    ensures x % U64 == x <==> x < U64
  {}

  function Power(base: nat, n: nat): nat { if n == 0 then 1 else base * Power(base, n - 1) }

  lemma {:induction false} TenIsTwoTimesFive(n: nat)
    ensures Pow10(n) == Power(2, n) * Power(5, n)
  {
    if n > 0 {
      TenIsTwoTimesFive(n - 1);
      var x, y := Power(2, n - 1), Power(5, n - 1);
      assert 10 * (x * y) == (2 * x) * (5 * y);
    }
  }

  lemma {:induction false} PowerSum(base: nat, m: nat, n: nat)
    ensures Power(base, m + n) == Power(base, m) * Power(base, n)
  {
    if m > 0 {
      PowerSum(base, m - 1, n);
      var x, y := Power(base, m - 1), Power(base, n);
      assert base * (x * y) == (base * x) * y;
    }
  }

  lemma SixtyFour()
    ensures Power(2, 64) == U64
  {
    assert Power(2, 4) == 16;
    PowerSum(2, 4, 4);
    PowerSum(2, 8, 8);
    PowerSum(2, 16, 16);
    PowerSum(2, 32, 32);
  }

  /** Sixty-four digits after the point wrap the power to zero, and the fraction is then divided by it. */
  lemma PowerVanishes(neg: bool, a: string, b: string)
    requires a != [] && AllDigits(a) && AllDigits(b) && |b| == 64
    ensures ToDecimal(Numeral(neg, a, b)) == Plain(neg, Nat(a) % U64, Nat(b) % U64, 0)
  {
    hide Nat, Pow10, AllDigits, ToDecimal, Numeral, Power;
    NumeralValue(neg, a, b);
    TenIsTwoTimesFive(64);
    SixtyFour();
    RemainderUnique(Pow10(64), Power(5, 64), 0, U64);
  }

  lemma SignDropped(neg: bool, a: string, b: string, s: string)
    requires a != [] && AllDigits(a) && s == if b == [] then [] else "." + b
    ensures var t := Numeral(neg, a, b); DropSign(t) == a + s && StartsWith(t, '-') == neg
  {
    var t := Numeral(neg, a, b);
    assert t[0] == if neg then '-' else a[0];
    assert DropSign(t) == a + s;
  }

  lemma NoDigits()
    ensures Nat("") % U64 == 0 && Pow10(|""|) % U64 == 1
  {}

  lemma {:induction false} AllNumberChars(t: string)
    requires forall k :: 0 <= k < |t| ==> Digit(t[k]) || t[k] == '.'
    ensures AfterNumber(t, false) == []
  {
    if t != [] { AllNumberChars(t[1..]); }
  }

  lemma NumeralReads(neg: bool, a: string, b: string, accepts: string -> bool)
    requires a != [] && AllDigits(a) && AllDigits(b)
    ensures NumberText(Numeral(neg, a, b), accepts)
    ensures NumberOf(Numeral(neg, a, b), accepts) == Ok([], NumeralDecimal(neg, a, b))
  {
    var t := Numeral(neg, a, b);
    var s := if b == [] then [] else "." + b;
    assert t[0] == if neg then '-' else a[0];
    assert DropSign(t) == a + s;
    AllNumberChars(a + s);
    assert t == Sgn(neg) + (a + s);
    NumeralValue(neg, a, b);
  }

  /** A plus sign changes nothing. */
  lemma PlusSign(a: string, b: string, accepts: string -> bool)
    requires a != [] && AllDigits(a) && AllDigits(b)
    ensures NumberText("+" + Numeral(false, a, b), accepts)
    ensures NumberOf("+" + Numeral(false, a, b), accepts) == Ok([], NumeralDecimal(false, a, b))
  {
    var t := Numeral(false, a, b);
    NumeralReads(false, a, b, accepts);
    assert t[0] == a[0] && DropSign(t) == t && DropSign("+" + t) == t;
  }

  lemma {:induction false} RunAhead(t: string, s: string, exp: bool)
    requires AllDigits(t)
    ensures AfterNumber(t + s, exp) == AfterNumber(s, exp)
  {
    if t == [] {
      assert t + s == s;
    } else {
      assert (t + s)[1..] == t[1..] + s;
      RunAhead(t[1..], s, exp);
    }
  }

  /** A text with an exponent, its sign after either letter, is one number, and the float library decides on it. */
  lemma ExponentReads(a: string, e: char, sign: string, x: string, accepts: string -> bool)
    requires a != [] && AllDigits(a) && (e == 'e' || e == 'E') && AllDigits(x)
    requires sign == "" || sign == "+" || sign == "-"
    ensures var t := a + ([e] + (sign + x));
            && (accepts(t) ==> NumberText(t, accepts) && NumberOf(t, accepts) == Ok([], Scientific(t)))
            && (!accepts(t) ==> NumberOf(t, accepts) == Malformed)
            && AfterNumber(DropSign(t), false) == []
  {
    var power, t := sign + x, a + ([e] + (sign + x));
    assert t[0] == a[0] && DropSign(t) == t;
    RunAhead(a, [e] + power, false);
    assert ([e] + power)[0] == e && ([e] + power)[1..] == power;
    assert x + [] == x;
    RunAhead(x, [], true);
    if sign == "" {
      assert power == x;
    } else {
      assert power[0] == sign[0] && power[1..] == x;
    }
    assert t[|a|] == e;
  }

  function Show(n: nat): (t: string)
    ensures t != [] && AllDigits(t) && Nat(t) == n
  {
    var c := (n % 10 + 48) as char;
    if n < 10 then assert [c][..0] == []; [c] else NatNext(Show(n / 10), c); Show(n / 10) + [c]
  }

  function ShowWidth(n: nat, width: nat): (t: string)
    requires n < Pow10(width)
    ensures |t| == width && AllDigits(t) && Nat(t) == n
  {
    if width == 0 then "" else
      var c := (n % 10 + 48) as char;
      NatNext(ShowWidth(n / 10, width - 1), c);
      ShowWidth(n / 10, width - 1) + [c]
  }

  function Width(pow: nat): nat {
    if pow < 10 then 0 else 1 + Width(pow / 10)
  }

  /** What the number reader can produce without an exponent and without wrapping. */
  predicate Writable(d: Decimal) {
    d.Plain? && d.whole < U64 && d.pow < U64 && d.pow == Pow10(Width(d.pow)) && d.frac < d.pow
  }

  function ShowDecimal(d: Decimal): string
    requires Writable(d)
  {
    Numeral(d.neg, Show(d.whole), ShowWidth(d.frac, Width(d.pow)))
  }

  lemma DecimalRoundTrip(d: Decimal, accepts: string -> bool)
    requires Writable(d)
    ensures NumberText(ShowDecimal(d), accepts)
    ensures NumberOf(ShowDecimal(d), accepts) == Ok([], d)
  {
    hide Show, ShowWidth, Width, Pow10, Nat, AllDigits, NumberText, NumberOf, Numeral;
    var a, b := Show(d.whole), ShowWidth(d.frac, Width(d.pow));
    NumeralReads(d.neg, a, b, accepts);
    Small(Nat(a));
    Small(Nat(b));
    Small(Pow10(|b|));
  }

  lemma Small(x: nat)
    requires x < U64
    ensures x % U64 == x
  {}

  // ---- what the reader can produce ----

  /** A number that some text reads as. */
  ghost predicate Readable(d: Decimal, accepts: string -> bool) {
    exists t :: NumberText(t, accepts) && NumberOf(t, accepts) == Ok([], d)
  }

  lemma WritableIsReadable(d: Decimal, accepts: string -> bool)
    requires Writable(d)
    ensures Readable(d, accepts)
  {
    DecimalRoundTrip(d, accepts);
  }

  lemma ZeroIsReadable(accepts: string -> bool)
    ensures Readable(ZERO, accepts)
  {
    assert Width(1) == 0 && Pow10(0) == 1;
    WritableIsReadable(ZERO, accepts);
  }

  ghost predicate GoodVal(v: Val, accepts: string -> bool) {
    match v
    case Num(d) => Readable(d, accepts)
    case Int(n) => n < U32
    case Text(s) => NoQuote(s)
    case Flag(_) => true
    case Names(names) => |names| <= MAX_KNOWN && forall k :: 0 <= k < |names| ==> NoQuote(names[k])
  }

  /** Every field holds a value the reader can produce. */
  ghost predicate Encodable(p: Payload, accepts: string -> bool) {
    forall f :: GoodVal(Get(p, f), accepts)
  }

  // ---- the encoder ----

  ghost function NumeralOf(d: Decimal, accepts: string -> bool): (t: string)
    requires Readable(d, accepts)
    ensures NumberText(t, accepts) && NumberOf(t, accepts) == Ok([], d)
  {
    var t :| NumberText(t, accepts) && NumberOf(t, accepts) == Ok([], d);
    t
  }

  function Listed(names: seq<string>): seq<Entry> {
    seq(|names|, k requires 0 <= k < |names| => Entry("", names[k], ""))
  }

  ghost function ItemOf(v: Val, accepts: string -> bool): Item
    requires GoodVal(v, accepts)
  {
    match v
    case Num(d) => Number(NumeralOf(d, accepts))
    case Int(n) => Number(Show(n))
    case Text(s) => Quoted(s)
    case Flag(b) => Bool(b)
    case Names(names) => List(Listed(names), "")
  }

  function Plainly(key: string, item: Item): Member {
    Member("", key, "", "", item, "")
  }

  /** The order in which the fields are written. */
  function FieldAt(k: nat): Field {
    match k
    case 0 => Amount case 1 => Installments case 2 => RequestedAt
    case 3 => AvgAmount case 4 => TxCount24h case 5 => Known
    case 6 => MerchantId case 7 => Mcc case 8 => MerchantAvgAmount
    case 9 => IsOnline case 10 => CardPresent case 11 => KmFromHome
    case 12 => LastTimestamp case 13 => LastKmFromCurrent case _ => HasLast
  }

  function PlaceOf(f: Field): nat {
    match f
    case Amount => 0 case Installments => 1 case RequestedAt => 2
    case AvgAmount => 3 case TxCount24h => 4 case Known => 5
    case MerchantId => 6 case Mcc => 7 case MerchantAvgAmount => 8
    case IsOnline => 9 case CardPresent => 10 case KmFromHome => 11
    case LastTimestamp => 12 case LastKmFromCurrent => 13 case HasLast => 14
  }

  /** The member for the field at a place. */
  ghost function FieldMember(p: Payload, at: nat, key: string, accepts: string -> bool): Member
    requires Encodable(p, accepts)
  {
    Plainly(key, ItemOf(Get(p, FieldAt(at)), accepts))
  }

  /** A section with the three fields from place `at` on. */
  ghost function Three(p: Payload, at: nat, key: string, k1: string, k2: string, k3: string,
                       accepts: string -> bool): Member
    requires Encodable(p, accepts)
  {
    Plainly(key, Object([FieldMember(p, at, k1, accepts), FieldMember(p, at + 1, k2, accepts),
                         FieldMember(p, at + 2, k3, accepts)], ""))
  }

  ghost function LastSection(p: Payload, accepts: string -> bool): Member
    requires Encodable(p, accepts)
  {
    Plainly("last_transaction",
            Object([FieldMember(p, 12, "timestamp", accepts), FieldMember(p, 13, "km_from_current", accepts)], ""))
  }

  const NO_LAST: Member := Member("", "last_transaction", "", "", Null, "")

  ghost function FiveSections(p: Payload, accepts: string -> bool): seq<Member>
    requires Encodable(p, accepts)
  {
    [Three(p, 0, "transaction", "amount", "installments", "requested_at", accepts),
     Three(p, 3, "customer", "avg_amount", "tx_count_24h", "known_merchants", accepts),
     Three(p, 6, "merchant", "id", "mcc", "avg_amount", accepts),
     Three(p, 9, "terminal", "is_online", "card_present", "km_from_home", accepts),
     LastSection(p, accepts)]
  }

  /** A document for a payload; a last transaction that is there no more is taken back by a null. */
  ghost function Encode(p: Payload, accepts: string -> bool): seq<Member>
    requires Encodable(p, accepts)
  {
    FiveSections(p, accepts) + if p.hasLast then [] else [NO_LAST]
  }

  // ---- what the encoding writes ----

  function WriteAt(p: Payload, k: nat): Write {
    (FieldAt(k), Get(p, FieldAt(k)))
  }

  function WriteRange(p: Payload, a: nat, b: nat): seq<Write>
    requires a <= b
  {
    seq<Write>(b - a, k requires 0 <= k < b - a => WriteAt(p, a + k))
  }

  lemma WriteRangeConcat(p: Payload, a: nat, b: nat, c: nat)
    requires a <= b <= c
    ensures WriteRange(p, a, b) + WriteRange(p, b, c) == WriteRange(p, a, c)
  {}

  /** A key the reader knows. */
  ghost predicate LeafKey(level: Level, key: string, f: Field) {
    NoQuote(key) && Lookup(level, key) == Leaf(f)
  }

  ghost predicate SectionKey(key: string, level: Level) {
    NoQuote(key) && Lookup(Top, key) == Section(level)
  }

  lemma ItemCarries(v: Val, kind: Kind, accepts: string -> bool)
    requires GoodVal(v, accepts) && Fits(kind, v)
    ensures GoodLeaf(ItemOf(v, accepts), kind, accepts) && LeafValue(ItemOf(v, accepts), kind, accepts) == v
  {
    hide NumberText, NumberOf, Readable, Nat, AllDigits, Show;
    if v.Names? { assert NamesOf(Listed(v.names)) == v.names; }
  }

  lemma FieldWrite(p: Payload, at: nat, level: Level, key: string, accepts: string -> bool)
    requires Encodable(p, accepts) && LeafKey(level, key, FieldAt(at))
    ensures GoodMember(FieldMember(p, at, key, accepts), level, accepts)
    ensures MemberWrites(FieldMember(p, at, key, accepts), level, accepts) == [WriteAt(p, at)]
  {
    hide Lookup, GoodLeaf, LeafValue, ItemOf, GoodVal, FieldAt;
    var f := FieldAt(at);
    var v := Get(p, f);
    ItemCarries(v, KindOf(f), accepts);
    hide Get, KindOf;
    var item := ItemOf(v, accepts);
    assert GoodItem(item, Leaf(f), accepts);
    assert ItemWrites(item, Leaf(f), accepts) == [(f, v)];
  }

  lemma ThreeWrites(p: Payload, at: nat, level: Level, key: string, k1: string, k2: string, k3: string,
                    accepts: string -> bool)
    requires Encodable(p, accepts) && SectionKey(key, level) && level != Last
    requires LeafKey(level, k1, FieldAt(at)) && LeafKey(level, k2, FieldAt(at + 1))
    requires LeafKey(level, k3, FieldAt(at + 2))
    ensures GoodMember(Three(p, at, key, k1, k2, k3, accepts), Top, accepts)
    ensures MemberWrites(Three(p, at, key, k1, k2, k3, accepts), Top, accepts) == WriteRange(p, at, at + 3)
  {
    hide LeafKey, SectionKey, Encodable, GoodMember, MemberWrites, GoodMembers, Writes, FieldAt, FieldMember, Get;
    FieldWrite(p, at, level, k1, accepts);
    FieldWrite(p, at + 1, level, k2, accepts);
    FieldWrite(p, at + 2, level, k3, accepts);
    var m1, m2 := FieldMember(p, at, k1, accepts), FieldMember(p, at + 1, k2, accepts);
    var m3 := FieldMember(p, at + 2, k3, accepts);
    GoodThree(m1, m2, m3, level, accepts);
    ObjectMember(key, [m1, m2, m3], level, accepts);
    assert WriteRange(p, at, at + 3) == [WriteAt(p, at), WriteAt(p, at + 1), WriteAt(p, at + 2)];
  }

  lemma GoodThree(m1: Member, m2: Member, m3: Member, level: Level, accepts: string -> bool)
    requires GoodMember(m1, level, accepts) && GoodMember(m2, level, accepts) && GoodMember(m3, level, accepts)
    ensures GoodMembers([m1, m2, m3], level, accepts)
    ensures Writes([m1, m2, m3], level, accepts)
         == MemberWrites(m1, level, accepts) + MemberWrites(m2, level, accepts) + MemberWrites(m3, level, accepts)
  {
    hide GoodMember, MemberWrites;
    GoodTwo(m2, m3, level, accepts);
    assert [m1, m2, m3][1..] == [m2, m3];
    assert GoodMembers([m1, m2, m3], level, accepts);
    assert Writes([m1, m2, m3], level, accepts) == MemberWrites(m1, level, accepts) + Writes([m2, m3], level, accepts);
  }

  lemma GoodTwo(m1: Member, m2: Member, level: Level, accepts: string -> bool)
    requires GoodMember(m1, level, accepts) && GoodMember(m2, level, accepts)
    ensures GoodMembers([m1, m2], level, accepts)
    ensures Writes([m1, m2], level, accepts) == MemberWrites(m1, level, accepts) + MemberWrites(m2, level, accepts)
  {
    hide GoodMember, MemberWrites;
    assert [m1, m2][1..] == [m2] && [m2][1..] == [];
    assert GoodMembers([m2], level, accepts);
    assert Writes([m2], level, accepts) == MemberWrites(m2, level, accepts) + [];
  }

  lemma ObjectMember(key: string, ms: seq<Member>, level: Level, accepts: string -> bool)
    requires SectionKey(key, level) && GoodMembers(ms, level, accepts)
    ensures GoodMember(Plainly(key, Object(ms, "")), Top, accepts)
    ensures MemberWrites(Plainly(key, Object(ms, "")), Top, accepts) == Entering(level) + Writes(ms, level, accepts)
  {
    var item := Object(ms, "");
    assert GoodItem(item, Section(level), accepts);
    assert ItemWrites(item, Section(level), accepts) == Entering(level) + Writes(ms, level, accepts);
  }

  lemma GoodFive(ms: seq<Member>, level: Level, accepts: string -> bool)
    requires |ms| == 5 && forall k :: 0 <= k < 5 ==> GoodMember(ms[k], level, accepts)
    ensures GoodMembers(ms, level, accepts)
    ensures Writes(ms, level, accepts)
         == MemberWrites(ms[0], level, accepts) + (MemberWrites(ms[1], level, accepts)
            + (MemberWrites(ms[2], level, accepts)
               + MemberWrites(ms[3], level, accepts) + MemberWrites(ms[4], level, accepts)))
  {
    var three, four := ms[2..], ms[1..];
    GoodThree(ms[2], ms[3], ms[4], level, accepts);
    hide GoodMember, MemberWrites;
    assert three == [ms[2], ms[3], ms[4]] && four[1..] == three;
    assert GoodMembers(four, level, accepts);
  }

  lemma TransactionKeys()
    ensures SectionKey("transaction", Transaction) && LeafKey(Transaction, "amount", FieldAt(0))
    ensures LeafKey(Transaction, "installments", FieldAt(1)) && LeafKey(Transaction, "requested_at", FieldAt(2))
  {}

  lemma CustomerKeys()
    ensures SectionKey("customer", Customer) && LeafKey(Customer, "avg_amount", FieldAt(3))
    ensures LeafKey(Customer, "tx_count_24h", FieldAt(4)) && LeafKey(Customer, "known_merchants", FieldAt(5))
  {}

  lemma MerchantKeys()
    ensures SectionKey("merchant", Merchant) && LeafKey(Merchant, "id", FieldAt(6))
    ensures LeafKey(Merchant, "mcc", FieldAt(7)) && LeafKey(Merchant, "avg_amount", FieldAt(8))
  {}

  lemma TerminalKeys()
    ensures SectionKey("terminal", Terminal) && LeafKey(Terminal, "is_online", FieldAt(9))
    ensures LeafKey(Terminal, "card_present", FieldAt(10)) && LeafKey(Terminal, "km_from_home", FieldAt(11))
  {}

  lemma LastKeys()
    ensures SectionKey("last_transaction", Last)
    ensures LeafKey(Last, "timestamp", FieldAt(12)) && LeafKey(Last, "km_from_current", FieldAt(13))
  {}

  lemma LastSectionWrites(p: Payload, accepts: string -> bool)
    requires Encodable(p, accepts)
    ensures GoodMember(LastSection(p, accepts), Top, accepts)
    ensures MemberWrites(LastSection(p, accepts), Top, accepts) == [(HasLast, Flag(true))] + WriteRange(p, 12, 14)
  {
    hide LeafKey, SectionKey, Encodable, GoodMember, MemberWrites, GoodMembers, Writes, FieldMember, Get, FieldAt;
    LastKeys();
    FieldWrite(p, 12, Last, "timestamp", accepts);
    FieldWrite(p, 13, Last, "km_from_current", accepts);
    var m1, m2 := FieldMember(p, 12, "timestamp", accepts), FieldMember(p, 13, "km_from_current", accepts);
    GoodTwo(m1, m2, Last, accepts);
    ObjectMember("last_transaction", [m1, m2], Last, accepts);
    assert WriteRange(p, 12, 14) == [WriteAt(p, 12), WriteAt(p, 13)];
  }

  lemma SectionsWrite(p: Payload, accepts: string -> bool)
    requires Encodable(p, accepts)
    ensures GoodMembers(FiveSections(p, accepts), Top, accepts)
    ensures Writes(FiveSections(p, accepts), Top, accepts)
         == WriteRange(p, 0, 12) + ([(HasLast, Flag(true))] + WriteRange(p, 12, 14))
  {
    hide LeafKey, SectionKey, Encodable, GoodMember, MemberWrites, WriteRange, Three, LastSection, FieldAt;
    TransactionKeys();
    CustomerKeys();
    MerchantKeys();
    TerminalKeys();
    ThreeWrites(p, 0, Transaction, "transaction", "amount", "installments", "requested_at", accepts);
    ThreeWrites(p, 3, Customer, "customer", "avg_amount", "tx_count_24h", "known_merchants", accepts);
    ThreeWrites(p, 6, Merchant, "merchant", "id", "mcc", "avg_amount", accepts);
    ThreeWrites(p, 9, Terminal, "terminal", "is_online", "card_present", "km_from_home", accepts);
    LastSectionWrites(p, accepts);
    var ms := FiveSections(p, accepts);
    GoodFive(ms, Top, accepts);
    WriteRangeConcat(p, 6, 9, 12);
    WriteRangeConcat(p, 3, 6, 12);
    WriteRangeConcat(p, 0, 3, 12);
    Regrouped(WriteRange(p, 0, 3), WriteRange(p, 3, 6), WriteRange(p, 6, 12),
              [(HasLast, Flag(true))] + WriteRange(p, 12, 14));
  }

  lemma Regrouped(a: seq<Write>, b: seq<Write>, c: seq<Write>, d: seq<Write>)
    ensures a + (b + (c + d)) == a + (b + c) + d
  {}

  lemma {:induction false} WritesSnoc(ms: seq<Member>, m: Member, level: Level, accepts: string -> bool)
    requires GoodMembers(ms, level, accepts) && GoodMember(m, level, accepts)
    ensures GoodMembers(ms + [m], level, accepts)
    ensures Writes(ms + [m], level, accepts) == Writes(ms, level, accepts) + MemberWrites(m, level, accepts)
  {
    hide GoodMember, MemberWrites;
    if ms == [] {
      assert ms + [m] == [m] && [m][1..] == [];
    } else {
      assert (ms + [m])[1..] == ms[1..] + [m];
      WritesSnoc(ms[1..], m, level, accepts);
    }
  }

  lemma NoLastWrites(accepts: string -> bool)
    ensures GoodMember(NO_LAST, Top, accepts)
    ensures MemberWrites(NO_LAST, Top, accepts) == [(HasLast, Flag(false))]
  {
    LastKeys();
    assert Lookup(Top, NO_LAST.key) == Section(Last);
    hide Lookup, NoQuote;
    assert GoodItem(Null, Section(Last), accepts);
    assert ItemWrites(Null, Section(Last), accepts) == [(HasLast, Flag(false))];
  }

  /** The whole encoding sets every field, the flag of the last transaction last. */
  ghost function AllWrites(p: Payload): seq<Write> {
    WriteRange(p, 0, 12) + ([(HasLast, Flag(true))] + WriteRange(p, 12, 14))
    + if p.hasLast then [] else [(HasLast, Flag(false))]
  }

  lemma EncodeWrites(p: Payload, accepts: string -> bool)
    requires Encodable(p, accepts)
    ensures GoodMembers(Encode(p, accepts), Top, accepts)
    ensures Writes(Encode(p, accepts), Top, accepts) == AllWrites(p)
  {
    hide Encodable, GoodMembers, Writes, FiveSections, WriteRange, GoodMember, MemberWrites;
    var ms := FiveSections(p, accepts);
    SectionsWrite(p, accepts);
    if p.hasLast {
      assert ms + [] == ms;
    } else {
      NoLastWrites(accepts);
      WritesSnoc(ms, NO_LAST, Top, accepts);
    }
  }

  /** Writes behind which nothing sets the field. */
  lemma {:induction false} LastWriteBefore(a: seq<Write>, b: seq<Write>, f: Field, was: Val)
    ensures LastWrite(a + b, f, was) == LastWrite(b, f, LastWrite(a, f, was))
    decreases |b|
  {
    if b == [] {
      assert a + b == a;
    } else {
      var m := |b| - 1;
      assert (a + b)[..|a| + m] == a + b[..m];
      LastWriteBefore(a, b[..m], f, was);
    }
  }

  lemma {:induction false} LastWriteInRange(p: Payload, a: nat, b: nat, f: Field, was: Val)
    requires a <= b <= 14
    ensures LastWrite(WriteRange(p, a, b), f, was) == if a <= PlaceOf(f) < b then Get(p, f) else was
    decreases b - a
  {
    if a < b {
      var m := b - 1;
      PlacesMatch(f, m);
      var ws := WriteRange(p, a, b);
      assert ws[..m - a] == WriteRange(p, a, m);
      assert ws[m - a] == WriteAt(p, m);
      hide FieldAt, PlaceOf, Get, WriteRange;
      LastWriteInRange(p, a, m, f, was);
    }
  }

  lemma PlacesMatch(f: Field, k: nat)
    requires k <= 14
    ensures FieldAt(k) == f <==> PlaceOf(f) == k
  {}

  lemma AllWritesAre(p: Payload, f: Field, was: Val)
    ensures LastWrite(AllWrites(p), f, was) == Get(p, f)
  {
    hide WriteRange, LastWrite, FieldAt, Get, PlaceOf;
    var a, b, c := WriteRange(p, 0, 12), [(HasLast, Flag(true))], WriteRange(p, 12, 14);
    LastWriteBefore(a, b + c, f, was);
    LastWriteBefore(b, c, f, LastWrite(a, f, was));
    LastWriteInRange(p, 0, 12, f, was);
    OneWrite((HasLast, Flag(true)), f, LastWrite(a, f, was));
    LastWriteInRange(p, 12, 14, f, LastWrite(b, f, LastWrite(a, f, was)));
    FlagComesLast(p, f);
    if p.hasLast {
      assert a + (b + c) + [] == a + (b + c);
    } else {
      LastWriteBefore(a + (b + c), [(HasLast, Flag(false))], f, was);
      OneWrite((HasLast, Flag(false)), f, LastWrite(a + (b + c), f, was));
    }
  }

  lemma FlagComesLast(p: Payload, f: Field)
    ensures PlaceOf(f) <= 14 && (PlaceOf(f) == 14 <==> f == HasLast) && Get(p, HasLast) == Flag(p.hasLast)
  {}

  lemma OneWrite(w: Write, f: Field, was: Val)
    ensures LastWrite([w], f, was) == if w.0 == f then w.1 else was
  {
    assert [w][..0] == [];
  }

  /** Parsing undoes encoding, for every payload the reader can produce. */
  lemma EncodeRoundTrip(p: Payload, tail: string, accepts: string -> bool)
    requires Encodable(p, accepts)
    ensures Parse(WriteItem(Object(Encode(p, accepts), ""), tail), accepts) == Ok(tail, p)
  {
    hide Encodable, Encode, AllWrites, GoodMembers, Writes, LastWrite, Get;
    EncodeWrites(p, accepts);
    var ms := Encode(p, accepts);
    var text := WriteItem(Object(ms, ""), tail);
    assert "" + text == text;
    forall f ensures Get(p, f) == LastWrite(AllWrites(p), f, Get(EMPTY, f)) { AllWritesAre(p, f, Get(EMPTY, f)); }
    DocumentRoundTrip("", ms, "", tail, p, accepts);
  }

  // ---- the reader produces nothing else ----

  lemma {:induction false} BeforeQuote(t: string)
    ensures NoQuote(t[..|t| - |FromQuote(t)|])
  {
    if t != [] && t[0] != '"' {
      BeforeQuote(t[1..]);
      var n := |t| - |FromQuote(t)|;
      assert t[1..][..n - 1] == t[..n][1..];
    }
  }

  lemma ReadStrGood(s: string)
    ensures ReadStr(s).Ok? ==> NoQuote(ReadStr(s).value)
  {
    var r := SkipWs(s);
    if StartsWith(r, '"') { BeforeQuote(r[1..]); }
  }

  lemma {:induction false} ReadDigitsGood(s: string, v: nat)
    requires v < U32
    ensures ReadDigits(s, v).1 < U32
  {
    if s != [] && Digit(s[0]) { ReadDigitsGood(s[1..], (v * 10 + DigitOf(s[0])) % U32); }
  }

  lemma {:induction false} RunIsWhole(s: string, exp: bool)
    ensures var rest := AfterNumber(s, exp);
            AfterNumber(s[..|s| - |rest|], exp) == []
    decreases |s|
  {
    var rest := AfterNumber(s, exp);
    var n := |s| - |rest|;
    if n > 0 {
      var exp' := exp || s[0] == 'e' || s[0] == 'E';
      RunIsWhole(s[1..], exp');
      assert s[..n][1..] == s[1..][..n - 1];
    }
  }

  lemma ReadF32Good(s: string, accepts: string -> bool)
    ensures ReadF32(s, accepts).Ok? ==> Readable(ReadF32(s, accepts).value, accepts)
  {
    var r := SkipWs(s);
    var body := DropSign(r);
    var rest := AfterNumber(body, false);
    if ReadF32(s, accepts).Ok? {
      RunIsWhole(body, false);
      var t := r[..|r| - |rest|];
      hide AfterNumber, NumberOf, SkipWs;
      assert DropSign(t) == body[..|body| - |rest|];
      assert NumberText(t, accepts) && NumberOf(t, accepts) == Ok([], ReadF32(s, accepts).value);
    }
  }

  lemma {:induction false} ReadNamesGood(s: string, names: seq<string>, accepts: string -> bool)
    requires GoodVal(Names(names), accepts)
    ensures ReadNames(s, names).Ok? ==> GoodVal(Names(ReadNames(s, names).value), accepts)
    decreases |s|
  {
    hide ReadStr, SkipWs, SkipComma, NoQuote;
    var r := SkipWs(s);
    if !StartsWith(r, ']') && ReadStr(r).Ok? {
      ReadStrGood(r);
      var o := ReadStr(r);
      ReadNamesGood(SkipComma(o.rest), if |names| < MAX_KNOWN then names + [o.value] else names, accepts);
    }
  }

  lemma ReadLeafGood(kind: Kind, s: string, accepts: string -> bool)
    ensures ReadLeaf(kind, s, accepts).Ok? ==> GoodVal(ReadLeaf(kind, s, accepts).value, accepts)
  {
    hide ReadF32, ReadStr, ReadBool, ReadNames, Readable, NoQuote, SkipWs, Expect;
    match kind
    case NumKind => ReadF32Good(s, accepts);
    case IntKind => ReadDigitsGood(SkipWs(s), 0);
    case TextKind => ReadStrGood(s);
    case FlagKind =>
    case NamesKind => if Expect(s, '[').Ok? { ReadNamesGood(Expect(s, '[').rest, [], accepts); }
  }

  lemma PutGood(p: Payload, f: Field, v: Val, accepts: string -> bool)
    requires Encodable(p, accepts) && Fits(KindOf(f), v) && GoodVal(v, accepts)
    ensures Encodable(Put(p, f, v), accepts)
  {
    hide Put, GoodVal, Get;
  }

  lemma EmptyGood(accepts: string -> bool)
    ensures Encodable(EMPTY, accepts)
  {
    ZeroIsReadable(accepts);
    hide Readable;
  }

  ghost predicate GoodOut(o: Out<Payload>, accepts: string -> bool) {
    o.Ok? ==> Encodable(o.value, accepts)
  }

  lemma {:induction false} ReadValueGood(s: string, p: Payload, slot: Slot, accepts: string -> bool)
    requires Encodable(p, accepts)
    ensures GoodOut(ReadValue(s, p, slot, accepts), accepts)
    decreases |s|, 1
  {
    hide Encodable, ReadLeaf, Put, SkipVal;
    match slot
    case Leaf(f) =>
      ReadLeafGood(KindOf(f), s, accepts);
      if ReadLeaf(KindOf(f), s, accepts).Ok? { PutGood(p, f, ReadLeaf(KindOf(f), s, accepts).value, accepts); }
    case Section(level) => ReadObjectGood(s, p, level, accepts);
    case Unknown =>
  }

  lemma {:induction false} ReadObjectGood(s: string, p: Payload, level: Level, accepts: string -> bool)
    requires Encodable(p, accepts)
    ensures GoodOut(ReadObject(s, p, level, accepts), accepts)
    decreases |s|, 0
  {
    hide Encodable, Put, Expect, ReadMembers;
    PutGood(p, HasLast, Flag(false), accepts);
    PutGood(p, HasLast, Flag(true), accepts);
    var o := Expect(s, '{');
    if o.Ok? { ReadMembersGood(o.rest, if level == Last then Put(p, HasLast, Flag(true)) else p, level, accepts); }
  }

  lemma {:induction false} ReadMembersGood(s: string, p: Payload, level: Level, accepts: string -> bool)
    requires Encodable(p, accepts)
    ensures GoodOut(ReadMembers(s, p, level, accepts), accepts)
    decreases |s|, 0
  {
    hide Encodable, ReadKey, ReadValue, SkipWs, SkipComma, Lookup;
    var r := SkipWs(s);
    if !StartsWith(r, '}') && ReadKey(r).Ok? {
      var k := ReadKey(r);
      ReadValueGood(k.rest, p, Lookup(level, k.value), accepts);
      var o := ReadValue(k.rest, p, Lookup(level, k.value), accepts);
      if o.Ok? { ReadMembersGood(SkipComma(o.rest), o.value, level, accepts); }
    }
  }

  /** The payloads the parser can return are exactly those the encoder can write. */
  lemma ParsedIffEncodable(p: Payload, accepts: string -> bool)
    ensures Encodable(p, accepts) <==> exists s, tail :: Parse(s, accepts) == Ok(tail, p)
  {
    if Encodable(p, accepts) {
      EncodeRoundTrip(p, "", accepts);
    }
    hide Encodable, ReadObject;
    if s, tail :| Parse(s, accepts) == Ok(tail, p) {
      EmptyGood(accepts);
      ReadObjectGood(s, EMPTY, Top, accepts);
    }
  }
}
