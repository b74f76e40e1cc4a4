/** The answer to one request: which branch it takes, and when looking for it stops the program. */
module Respond {
  import opened Machine
  import opened Http
  import JsonSpec
  import Json
  import JsonRoundTrip
  import Calendar

  // ---- time stamps ----

  /** The two digits from `i` on, in byte arithmetic. */
  function Two(s: string, i: nat): nat
    requires i + 1 < |s|
  {
    JsonSpec.DigitOf(s[i]) * 10 + JsonSpec.DigitOf(s[i + 1])
  }

  const NO_STAMP := Calendar.Stamp(Calendar.Date(0, 0, 0), 0, 0, 0)

  /** Digits at fixed places; anything shorter gives the zero stamp, whose month is no month. */
  function ParseStamp(s: string): Calendar.Stamp {
    if |s| < 19 then NO_STAMP
    else Calendar.Stamp(Calendar.Date(Two(s, 0) * 100 + Two(s, 2), Two(s, 5), Two(s, 8)),
                        Two(s, 11), Two(s, 14), Two(s, 17))
  }

  function ShowTwo(n: nat): (t: string)
    requires n < 100
    ensures |t| == 2
  {
    [(n / 10 + 48) as char, (n % 10 + 48) as char]
  }

  /** A stamp written out, with the separators of the standard form. */
  function ShowStamp(t: Calendar.Stamp): string
    requires Calendar.ValidStamp(t) && 0 <= t.date.year < 10_000
  {
    ShowTwo(t.date.year / 100) + ShowTwo(t.date.year % 100) + "-" + ShowTwo(t.date.month) + "-" + ShowTwo(t.date.day)
    + "T" + ShowTwo(t.hour) + ":" + ShowTwo(t.minute) + ":" + ShowTwo(t.second)
  }

  lemma TwoLong(t: Calendar.Stamp)
    requires Calendar.ValidStamp(t) && 0 <= t.date.year < 10_000
    ensures |ShowStamp(t)| == 19
  {}

  lemma ReadsTwo(s: string, i: nat, n: nat)
    requires i + 1 < |s| && n < 100 && s[i] == ShowTwo(n)[0] && s[i + 1] == ShowTwo(n)[1]
    ensures Two(s, i) == n
  {}

  /** A valid stamp of the years 0 to 9999 is read back from its text, whatever follows. */
  lemma StampRoundTrip(t: Calendar.Stamp, more: string)
    requires Calendar.ValidStamp(t) && 0 <= t.date.year < 10_000
    ensures ParseStamp(ShowStamp(t) + more) == t
  {
    hide Two, ShowTwo;
    var s := ShowStamp(t) + more;
    TwoLong(t);
    ReadsTwo(s, 0, t.date.year / 100);
    ReadsTwo(s, 2, t.date.year % 100);
    ReadsTwo(s, 5, t.date.month);
    ReadsTwo(s, 8, t.date.day);
    ReadsTwo(s, 11, t.hour);
    ReadsTwo(s, 14, t.minute);
    ReadsTwo(s, 17, t.second);
  }

  // ---- the answer ----

  /** The place of a month in the table of twelve, in 32-bit arithmetic without sign. */
  function MonthPlace(month: nat): nat { (month + U32_MAX) % (U32_MAX + 1) }

  lemma MonthInTable(month: nat)
    requires month <= U32_MAX
    ensures MonthPlace(month) < 12 <==> 1 <= month <= 12
  {}

  /** The day of the week of a stamp; none when the month falls outside the table, which stops the program. */
  function WeekdayOf(t: Calendar.Stamp): Option<int>
    requires 0 <= t.date.month <= U32_MAX
  {
    if MonthPlace(t.date.month) < 12 then
      MonthInTable(t.date.month);
      Some(Calendar.DayOfWeek(t.date.year, t.date.month, t.date.day))
    else None
  }

  lemma StampMonth(s: string)
    ensures 0 <= ParseStamp(s).date.month <= 2805
  {}

  /** Scored: the payload and its weekday go on to the tree and the search. */
  datatype Answer = Ready | NotFound | Unreadable | Scored(payload: JsonSpec.Payload, weekday: int) | Stops

  /** A body as the payload reader sees it. */
  function Text(body: seq<Byte>): string {
    seq(|body|, i requires 0 <= i < |body| => body[i] as char)
  }

  function ScoreAnswer(p: JsonSpec.Payload): Answer {
    StampMonth(p.requestedAt);
    match WeekdayOf(ParseStamp(p.requestedAt))
    case None => Stops
    case Some(day) => Scored(p, day)
  }

  function AnswerTo(r: Request, accepts: string -> bool): Answer {
    match r.kind
    case GetReady => Ready
    case Other => NotFound
    case PostScore =>
      match JsonSpec.Parse(Text(r.body), accepts)
      case Malformed => Unreadable
      case Ok(_, p) => ScoreAnswer(p)
  }

  method RespondTo(r: Request, accepts: string -> bool) returns (a: Answer)
    ensures a == AnswerTo(r, accepts)
  {
    match r.kind
    case GetReady => return Ready;
    case Other => return NotFound;
    case PostScore =>
      var ok, p := Json.ParsePayload(Text(r.body), accepts);
      if !ok {
        return Unreadable;
      }
      return ScoreAnswer(p);
  }

  // ---- when there is one ----

  /** The time of the transaction has the length of a stamp and names a month. */
  predicate Dated(p: JsonSpec.Payload) {
    |p.requestedAt| >= 19 && 1 <= Two(p.requestedAt, 5) <= 12
  }

  predicate Answerable(r: Request, accepts: string -> bool) {
    r.kind == PostScore ==>
      var o := JsonSpec.Parse(Text(r.body), accepts);
      o.Ok? ==> Dated(o.value)
  }

  /** Answering stops the program exactly on a scoring request whose payload is readable and not dated. */
  lemma StopsIff(r: Request, accepts: string -> bool)
    ensures AnswerTo(r, accepts) == Stops <==> !Answerable(r, accepts)
  {
    hide JsonSpec.Parse;
    if r.kind == PostScore {
      var o := JsonSpec.Parse(Text(r.body), accepts);
      if o.Ok? { ScoreStopsIff(o.value); }
    }
  }

  lemma ScoreStopsIff(p: JsonSpec.Payload)
    ensures ScoreAnswer(p) == Stops <==> !Dated(p)
  {
    StampMonth(p.requestedAt);
    MonthInTable(ParseStamp(p.requestedAt).date.month);
    hide Calendar.DayOfWeek;
  }

  /** A payload whose time is a written valid stamp is dated, and its weekday is that of the date. */
  lemma StampedIsScored(p: JsonSpec.Payload, t: Calendar.Stamp, more: string)
    requires Calendar.ValidStamp(t) && 0 <= t.date.year < 10_000 && p.requestedAt == ShowStamp(t) + more
    ensures ScoreAnswer(p) == Scored(p, (Calendar.DayNumber(t.date) + 3) % 7)
  {
    StampRoundTrip(t, more);
    hide ShowStamp, Calendar.DayOfWeek, Calendar.WeekSum, Calendar.DayNumber;
    MonthInTable(t.date.month);
    Calendar.OrdinaryYearsFit(t.date.year, t.date.month, t.date.day);
    Calendar.WeekdayAgreesIff(t.date);
  }

  /** The empty object is a readable payload without a time. */
  lemma EmptyObjectStops(r: Request, accepts: string -> bool)
    requires r.kind == PostScore && r.body == [123, 125]
    ensures AnswerTo(r, accepts) == Stops && !Answerable(r, accepts)
  {
    var s := Text(r.body);
    assert s == "" + ("{" + "}") && s == "{}";
    JsonRoundTrip.Expects("", '{', "}");
    assert JsonSpec.ReadMembers("}", JsonSpec.EMPTY, JsonSpec.Top, accepts) == JsonSpec.Ok("", JsonSpec.EMPTY) by {
      assert "}"[1..] == "";
    }
    assert JsonSpec.Parse(s, accepts) == JsonSpec.Ok("", JsonSpec.EMPTY);
    StopsIff(r, accepts);
  }

  // ---- the answer from the bytes ----

  ghost predicate OpensWith(buf: seq<Byte>, text: string) {
    |text| <= |buf| && Text(buf[..|text|]) == text
  }

  lemma OpensWithIff(buf: seq<Byte>, prefix: seq<Byte>, text: string)
    requires Text(prefix) == text
    ensures OpensWith(buf, text) <==> prefix <= buf
  {
    assert |prefix| == |text|;
    if |text| <= |buf| {
      var front := buf[..|text|];
      if Text(front) == text {
        forall i | 0 <= i < |text| ensures front[i] == prefix[i] {
          assert Text(front)[i] == Text(prefix)[i];
        }
        assert front == prefix;
      }
    }
  }

  lemma PrefixTexts()
    ensures Text(POST) == "POST /fraud-score" && Text(GET) == "GET /ready"
    ensures Text(CONTENT_LENGTH) == "content-length:"
  {}

  /** Which answer a whole request gets, told from its first bytes and its payload. */
  lemma AnswerFromBytes(buf: seq<Byte>, accepts: string -> bool)
    requires Parse(buf).Complete?
    ensures var a := AnswerTo(Parse(buf).request, accepts);
            var payload := JsonSpec.Parse(Text(Parse(buf).request.body), accepts);
            var scoring := OpensWith(buf, "POST /fraud-score");
            && (a == Ready <==> OpensWith(buf, "GET /ready"))
            && (a == NotFound <==> !scoring && !OpensWith(buf, "GET /ready"))
            && (a == Unreadable <==> scoring && payload.Malformed?)
            && (a == Stops <==> scoring && payload.Ok? && !Dated(payload.value))
            && (a.Scored? <==> scoring && payload.Ok? && Dated(payload.value))
            && (a.Scored? ==> a.payload == payload.value)
  {
    PrefixTexts();
    OpensWithIff(buf, POST, "POST /fraud-score");
    OpensWithIff(buf, GET, "GET /ready");
    KindFromBytes(buf);
    hide Parse, JsonSpec.Parse, OpensWith, Text, Dated, ScoreAnswer;
    var o := JsonSpec.Parse(Text(Parse(buf).request.body), accepts);
    if o.Ok? { ScoreBranches(o.value); }
  }

  lemma ScoreBranches(p: JsonSpec.Payload)
    ensures if Dated(p) then ScoreAnswer(p).Scored? && ScoreAnswer(p).payload == p else ScoreAnswer(p) == Stops
  {
    ScoreStopsIff(p);
    hide Dated;
  }

  lemma KindFromBytes(buf: seq<Byte>)
    requires Parse(buf).Complete?
    ensures Parse(buf).request.kind == if POST <= buf then PostScore else if GET <= buf then GetReady else Other
    ensures !(POST <= buf && GET <= buf)
  {
    assert POST[0] != GET[0];
    hide FindSeparator, ContentLength;
  }

  /** Fewer than sixteen bytes are never looked at. */
  lemma ShortIsIncomplete(buf: seq<Byte>)
    ensures |buf| < 16 ==> Parse(buf) == Incomplete
    ensures |buf| >= 16 && !(POST <= buf) && FindSeparator(buf, 0) >= 0 ==> Parse(buf).Complete?
  {}
}
