/**
 * The payload grammar, as functions from the unread text to a value and the text left over.
 * A character stands for one byte.
 */
module JsonSpec {
  const U32: nat := 0x1_0000_0000
  const U64: nat := 0x1_0000_0000_0000_0000
  const MAX_KNOWN: nat := 16

  /**
   * A number before the last step to a float: its sign, the digits before and after the point as 64-bit
   * integers and the power of ten under the latter; or a text with an exponent, which goes to the library.
   */
  datatype Decimal = Plain(neg: bool, whole: nat, frac: nat, pow: nat) | Scientific(text: string)

  const ZERO := Plain(false, 0, 0, 1)

  datatype Payload = Payload(
    amount: Decimal, installments: nat, requestedAt: string,
    avgAmount: Decimal, txCount24h: nat, known: seq<string>,
    merchantId: string, mcc: string, merchantAvgAmount: Decimal,
    isOnline: bool, cardPresent: bool, kmFromHome: Decimal,
    hasLast: bool, lastTimestamp: string, lastKmFromCurrent: Decimal)

  const EMPTY := Payload(ZERO, 0, "", ZERO, 0, [], "", "", ZERO, false, false, ZERO, false, "", ZERO)

  datatype Field =
    | Amount | Installments | RequestedAt | AvgAmount | TxCount24h | Known | MerchantId | Mcc
    | MerchantAvgAmount | IsOnline | CardPresent | KmFromHome | HasLast | LastTimestamp | LastKmFromCurrent

  datatype Kind = NumKind | IntKind | TextKind | FlagKind | NamesKind

  datatype Val = Num(d: Decimal) | Int(n: nat) | Text(s: string) | Flag(b: bool) | Names(names: seq<string>)

  function KindOf(f: Field): Kind {
    match f
    case Amount | AvgAmount | MerchantAvgAmount | KmFromHome | LastKmFromCurrent => NumKind
    case Installments | TxCount24h => IntKind
    case RequestedAt | MerchantId | Mcc | LastTimestamp => TextKind
    case IsOnline | CardPresent | HasLast => FlagKind
    case Known => NamesKind
  }

  predicate Fits(k: Kind, v: Val) {
    match k
    case NumKind => v.Num?
    case IntKind => v.Int?
    case TextKind => v.Text?
    case FlagKind => v.Flag?
    case NamesKind => v.Names?
  }

  function Get(p: Payload, f: Field): (v: Val)
    ensures Fits(KindOf(f), v)
  {
    match f
    case Amount => Num(p.amount)
    case Installments => Int(p.installments)
    case RequestedAt => Text(p.requestedAt)
    case AvgAmount => Num(p.avgAmount)
    case TxCount24h => Int(p.txCount24h)
    case Known => Names(p.known)
    case MerchantId => Text(p.merchantId)
    case Mcc => Text(p.mcc)
    case MerchantAvgAmount => Num(p.merchantAvgAmount)
    case IsOnline => Flag(p.isOnline)
    case CardPresent => Flag(p.cardPresent)
    case KmFromHome => Num(p.kmFromHome)
    case HasLast => Flag(p.hasLast)
    case LastTimestamp => Text(p.lastTimestamp)
    case LastKmFromCurrent => Num(p.lastKmFromCurrent)
  }

  function Put(p: Payload, f: Field, v: Val): (q: Payload)
    requires Fits(KindOf(f), v)
    ensures forall g :: Get(q, g) == if g == f then v else Get(p, g)
  {
    match f
    case Amount => p.(amount := v.d)
    case Installments => p.(installments := v.n)
    case RequestedAt => p.(requestedAt := v.s)
    case AvgAmount => p.(avgAmount := v.d)
    case TxCount24h => p.(txCount24h := v.n)
    case Known => p.(known := v.names)
    case MerchantId => p.(merchantId := v.s)
    case Mcc => p.(mcc := v.s)
    case MerchantAvgAmount => p.(merchantAvgAmount := v.d)
    case IsOnline => p.(isOnline := v.b)
    case CardPresent => p.(cardPresent := v.b)
    case KmFromHome => p.(kmFromHome := v.d)
    case HasLast => p.(hasLast := v.b)
    case LastTimestamp => p.(lastTimestamp := v.s)
    case LastKmFromCurrent => p.(lastKmFromCurrent := v.d)
  }

  datatype Level = Top | Transaction | Customer | Merchant | Terminal | Last

  /** What a key stands for in the object it appears in. */
  datatype Slot = Leaf(field: Field) | Section(level: Level) | Unknown

  function Lookup(level: Level, key: string): Slot {
    match level
    case Top =>
      if key == "transaction" then Section(Transaction)
      else if key == "customer" then Section(Customer)
      else if key == "merchant" then Section(Merchant)
      else if key == "terminal" then Section(Terminal)
      else if key == "last_transaction" then Section(Last)
      else Unknown
    case Transaction =>
      if key == "amount" then Leaf(Amount)
      else if key == "installments" then Leaf(Installments)
      else if key == "requested_at" then Leaf(RequestedAt)
      else Unknown
    case Customer =>
      if key == "avg_amount" then Leaf(AvgAmount)
      else if key == "tx_count_24h" then Leaf(TxCount24h)
      else if key == "known_merchants" then Leaf(Known)
      else Unknown
    case Merchant =>
      if key == "id" then Leaf(MerchantId)
      else if key == "mcc" then Leaf(Mcc)
      else if key == "avg_amount" then Leaf(MerchantAvgAmount)
      else Unknown
    case Terminal =>
      if key == "is_online" then Leaf(IsOnline)
      else if key == "card_present" then Leaf(CardPresent)
      else if key == "km_from_home" then Leaf(KmFromHome)
      else Unknown
    case Last =>
      if key == "timestamp" then Leaf(LastTimestamp)
      else if key == "km_from_current" then Leaf(LastKmFromCurrent)
      else Unknown
  }

  // ---- the lexer ----

  datatype Out<T> = Ok(rest: string, value: T) | Malformed

  predicate Blank(c: char) { c == ' ' || c == '\t' || c == '\r' || c == '\n' }
  predicate Digit(c: char) { '0' <= c <= '9' }
  predicate Sign(c: char) { c == '+' || c == '-' }

  predicate StartsWith(s: string, c: char) { s != [] && s[0] == c }

  function SkipWs(s: string): (r: string)
    ensures |r| <= |s|
    ensures r != [] ==> !Blank(r[0])
  {
    if s != [] && Blank(s[0]) then SkipWs(s[1..]) else s
  }

  function Expect(s: string, c: char): (o: Out<()>)
    ensures o.Ok? ==> |o.rest| < |s|
  {
    var r := SkipWs(s);
    if StartsWith(r, c) then Ok(r[1..], ()) else Malformed
  }

  /** From the first quote on. */
  function FromQuote(s: string): (r: string)
    ensures |r| <= |s|
    ensures r == [] || r[0] == '"'
  {
    if s != [] && s[0] != '"' then FromQuote(s[1..]) else s
  }

  function ReadStr(s: string): (o: Out<string>)
    ensures o.Ok? ==> |o.rest| < |s|
  {
    var r := SkipWs(s);
    if !StartsWith(r, '"') then Malformed
    else
      var t := r[1..];
      var q := FromQuote(t);
      if q == [] then Malformed else Ok(q[1..], t[..|t| - |q|])
  }

  function ReadBool(s: string): (o: Out<bool>)
    ensures o.Ok? ==> |o.rest| <= |s|
  {
    var r := SkipWs(s);
    if |r| >= 4 && r[..4] == "true" then Ok(r[4..], true)
    else if |r| >= 5 && r[..5] == "false" then Ok(r[5..], false)
    else Malformed
  }

  /** The value of a character as a digit, in byte arithmetic. */
  function DigitOf(c: char): nat { (c as int + 208) % 256 }

  function ReadDigits(s: string, v: nat): (o: (string, nat))
    ensures |o.0| <= |s|
  {
    if s != [] && Digit(s[0]) then ReadDigits(s[1..], (v * 10 + DigitOf(s[0])) % U32) else (s, v)
  }

  function ReadU32(s: string): (o: Out<nat>)
    ensures o.Ok? ==> |o.rest| <= |s|
  {
    var r := SkipWs(s);
    var (rest, v) := ReadDigits(r, 0);
    if |rest| == |r| then Malformed else Ok(rest, v)
  }

  /** What follows the longest run of number characters; signs count once an exponent has been seen. */
  function AfterNumber(s: string, exp: bool): (r: string)
    ensures |r| <= |s|
  {
    if s == [] then s
    else if Digit(s[0]) || s[0] == '.' then AfterNumber(s[1..], exp)
    else if s[0] == 'e' || s[0] == 'E' then AfterNumber(s[1..], true)
    else if Sign(s[0]) && exp then AfterNumber(s[1..], exp)
    else s
  }

  predicate HasExp(t: string) { 'e' in t || 'E' in t }

  function DropSign(s: string): (r: string)
    ensures |r| <= |s|
  {
    if s != [] && Sign(s[0]) then s[1..] else s
  }

  function WholePart(s: string, v: nat): (o: (string, nat)) {
    if s != [] && s[0] != '.' then WholePart(s[1..], (v * 10 + DigitOf(s[0])) % U64) else (s, v)
  }

  function FracPart(s: string, v: nat, pow: nat): (o: (nat, nat)) {
    if s != [] then FracPart(s[1..], (v * 10 + DigitOf(s[0])) % U64, pow * 10 % U64) else (v, pow)
  }

  function ToDecimal(t: string): Decimal {
    var neg := StartsWith(t, '-');
    var (rest, whole) := WholePart(DropSign(t), 0);
    if rest == [] then Plain(neg, whole, 0, 1)
    else
      var (frac, pow) := FracPart(rest[1..], 0, 1);
      Plain(neg, whole, frac, pow)
  }

  /** `accepts` says which texts with an exponent the float library takes. */
  function NumberOf(t: string, accepts: string -> bool): (d: Out<Decimal>)
    ensures d.Ok? ==> d.rest == []
  {
    if HasExp(t) then if accepts(t) then Ok([], Scientific(t)) else Malformed
    else Ok([], ToDecimal(t))
  }

  function ReadF32(s: string, accepts: string -> bool): (o: Out<Decimal>)
    ensures o.Ok? ==> |o.rest| <= |s|
  {
    var r := SkipWs(s);
    var rest := AfterNumber(DropSign(r), false);
    if |rest| == |r| then Malformed
    else
      match NumberOf(r[..|r| - |rest|], accepts)
      case Malformed => Malformed
      case Ok(_, d) => Ok(rest, d)
  }

  /** How many brackets are open after one more character. */
  function Deeper(c: char, open: char, close: char, depth: nat): nat
    requires depth > 0
  {
    if c == open then depth + 1 else if c == close then depth - 1 else depth
  }

  /** Past the bracket that closes the open ones; only brackets of the same shape are counted. */
  function AfterNested(s: string, open: char, close: char, depth: nat): (r: string)
    ensures |r| <= |s|
  {
    if s == [] || depth == 0 then s
    else AfterNested(s[1..], open, close, Deeper(s[0], open, close, depth))
  }

  predicate EndsScalar(c: char) { c == ',' || c == '}' || c == ']' }

  function AfterScalar(s: string): (r: string)
    ensures |r| <= |s|
  {
    if s != [] && !EndsScalar(s[0]) then AfterScalar(s[1..]) else s
  }

  function SkipVal(s: string): (r: string)
    ensures |r| <= |s|
  {
    var r := SkipWs(s);
    if r == [] then r
    else if r[0] == '"' then
      var q := FromQuote(r[1..]);
      if q == [] then q else q[1..]
    else if r[0] == '{' then AfterNested(r[1..], '{', '}', 1)
    else if r[0] == '[' then AfterNested(r[1..], '[', ']', 1)
    else AfterScalar(r)
  }

  // ---- the parser ----

  function SkipComma(s: string): (r: string)
    ensures |r| <= |s|
  {
    var r := SkipWs(s);
    if StartsWith(r, ',') then r[1..] else r
  }

  /** The entries of a name list; the first sixteen are kept. */
  function ReadNames(s: string, names: seq<string>): (o: Out<seq<string>>)
    ensures o.Ok? ==> |o.rest| <= |s|
    decreases |s|
  {
    var r := SkipWs(s);
    if StartsWith(r, ']') then Ok(r[1..], names)
    else
      match ReadStr(r)
      case Malformed => Malformed
      case Ok(rest, t) => ReadNames(SkipComma(rest), if |names| < MAX_KNOWN then names + [t] else names)
  }

  function ReadKnown(s: string): (o: Out<seq<string>>)
    ensures o.Ok? ==> |o.rest| <= |s|
  {
    match Expect(s, '[')
    case Malformed => Malformed
    case Ok(rest, _) => ReadNames(rest, [])
  }

  function ReadLeaf(k: Kind, s: string, accepts: string -> bool): (o: Out<Val>)
    ensures o.Ok? ==> |o.rest| <= |s| && Fits(k, o.value)
  {
    match k
    case NumKind => (match ReadF32(s, accepts) case Ok(rest, d) => Ok(rest, Num(d)) case Malformed => Malformed)
    case IntKind => (match ReadU32(s) case Ok(rest, n) => Ok(rest, Int(n)) case Malformed => Malformed)
    case TextKind => (match ReadStr(s) case Ok(rest, t) => Ok(rest, Text(t)) case Malformed => Malformed)
    case FlagKind => (match ReadBool(s) case Ok(rest, b) => Ok(rest, Flag(b)) case Malformed => Malformed)
    case NamesKind => (match ReadKnown(s) case Ok(rest, ns) => Ok(rest, Names(ns)) case Malformed => Malformed)
  }

  function ReadValue(s: string, p: Payload, slot: Slot, accepts: string -> bool): (o: Out<Payload>)
    ensures o.Ok? ==> |o.rest| <= |s|
    decreases |s|, 1
  {
    match slot
    case Leaf(f) => (
      match ReadLeaf(KindOf(f), s, accepts)
      case Malformed => Malformed
      case Ok(rest, v) => Ok(rest, Put(p, f, v)))
    case Section(level) => ReadObject(s, p, level, accepts)
    case Unknown => Ok(SkipVal(s), p)
  }

  function ReadObject(s: string, p: Payload, level: Level, accepts: string -> bool): (o: Out<Payload>)
    ensures o.Ok? ==> |o.rest| <= |s|
    decreases |s|, 0
  {
    if level == Last && |s| >= 4 && s[..4] == "null" then Ok(s[4..], Put(p, HasLast, Flag(false)))
    else
      match Expect(s, '{')
      case Malformed => Malformed
      case Ok(rest, _) => ReadMembers(rest, if level == Last then Put(p, HasLast, Flag(true)) else p, level, accepts)
  }

  /** A key and the colon and blanks after it. */
  function ReadKey(s: string): (o: Out<string>)
    ensures o.Ok? ==> |o.rest| < |s|
  {
    match ReadStr(s)
    case Malformed => Malformed
    case Ok(rest, key) =>
      match Expect(rest, ':')
      case Malformed => Malformed
      case Ok(rest', _) => Ok(SkipWs(rest'), key)
  }

  function ReadMembers(s: string, p: Payload, level: Level, accepts: string -> bool): (o: Out<Payload>)
    ensures o.Ok? ==> |o.rest| <= |s|
    decreases |s|, 0
  {
    var r := SkipWs(s);
    if StartsWith(r, '}') then Ok(r[1..], p)
    else
      match ReadKey(r)
      case Malformed => Malformed
      case Ok(rest, key) =>
        match ReadValue(rest, p, Lookup(level, key), accepts)
        case Malformed => Malformed
        case Ok(rest', p') => ReadMembers(SkipComma(rest'), p', level, accepts)
  }

  function Parse(s: string, accepts: string -> bool): Out<Payload> {
    ReadObject(s, EMPTY, Top, accepts)
  }
}
