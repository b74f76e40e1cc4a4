/** The connection loops: a fixed buffer, filled by reads of any size, drained of whole requests and compacted. */
module Connection {
  import opened Machine
  import opened Http
  import opened HttpRoundTrip
  import opened Respond

  const BUFFER_SIZE: nat := 8192

  /**
   * The requests of a whole stream that get an answer: one greedy parse after another, as far as the buffer could
   * hold them, up to the first on which answering stops the program.
   */
  function Greedy(s: seq<Byte>, accepts: string -> bool): seq<Request>
    decreases |s|
  {
    var r := Parse(s);
    if r.Complete? && r.request.end <= BUFFER_SIZE && Answerable(r.request, accepts) then
      [r.request] + Greedy(s[r.request.end..], accepts)
    else []
  }

  /** What comes after the requests answered: more bytes are awaited, the peer is turned away, or the program stops. */
  datatype Fate = Open | Refused | Stopped

  /** As much of a stream as the buffer holds. */
  function View(s: seq<Byte>): seq<Byte> { if |s| > BUFFER_SIZE then s[..BUFFER_SIZE] else s }

  /** The fate of a stream, read buffer by buffer. */
  function FateOf(s: seq<Byte>, accepts: string -> bool): Fate
    decreases |s|
  {
    match Parse(View(s))
    case Incomplete => Open
    case Bad => Refused
    case Crash => Stopped
    case Complete(r) => if Answerable(r, accepts) then FateOf(s[r.end..], accepts) else Stopped
  }

  function Concat(ms: seq<seq<Byte>>): seq<Byte> {
    if ms == [] then [] else ms[0] + Concat(ms[1..])
  }

  /** A message that is one whole request, fits the buffer and has an answer. */
  ghost predicate Whole(m: seq<Byte>, accepts: string -> bool) {
    && Parse(m).Complete? && Parse(m).request.end == |m| <= BUFFER_SIZE
    && Answerable(Parse(m).request, accepts)
  }

  ghost function RequestsOf(ms: seq<seq<Byte>>, accepts: string -> bool): seq<Request>
    requires forall i :: 0 <= i < |ms| ==> Whole(ms[i], accepts)
  {
    if ms == [] then []
    else
      assert Whole(ms[0], accepts);
      [Parse(ms[0]).request] + RequestsOf(ms[1..], accepts)
  }

  /** Pipelining: messages sent back to back are recognised one by one, whatever follows. */
  lemma {:induction false} GreedyPipelines(ms: seq<seq<Byte>>, tail: seq<Byte>, accepts: string -> bool)
    requires forall i :: 0 <= i < |ms| ==> Whole(ms[i], accepts)
    ensures Greedy(Concat(ms) + tail, accepts) == RequestsOf(ms, accepts) + Greedy(tail, accepts)
  {
    hide Parse;
    if ms == [] {
      assert [] + tail == tail;
      assert [] + Greedy(tail, accepts) == Greedy(tail, accepts);
    } else {
      var m, rest := ms[0], Concat(ms[1..]);
      assert Concat(ms) + tail == m + (rest + tail);
      GreedyFirst(m, rest + tail, accepts);
      GreedyPipelines(ms[1..], tail, accepts);
      hide Greedy, Concat, Whole;
      assert RequestsOf(ms, accepts) == [Parse(m).request] + RequestsOf(ms[1..], accepts);
      assert [Parse(m).request] + (RequestsOf(ms[1..], accepts) + Greedy(tail, accepts))
          == RequestsOf(ms, accepts) + Greedy(tail, accepts);
    }
  }

  lemma GreedyFirst(m: seq<Byte>, more: seq<Byte>, accepts: string -> bool)
    requires Whole(m, accepts)
    ensures Greedy(m + more, accepts) == [Parse(m).request] + Greedy(more, accepts)
  {
    hide Parse;
    ParseStable(m, more);
    assert (m + more)[|m|..] == more;
  }

  /** What draining a buffer yields: the requests answered, the bytes left, and the fate of the connection. */
  datatype Drained = Drained(requests: seq<Request>, rest: seq<Byte>, fate: Fate)

  function Drain(b: seq<Byte>, accepts: string -> bool): (d: Drained)
    ensures |d.rest| <= |b|
    decreases |b|
  {
    match Parse(b)
    case Incomplete => Drained([], b, Open)
    case Bad => Drained([], b, Refused)
    case Crash => Drained([], b, Stopped)
    case Complete(r) =>
      if !Answerable(r, accepts) then Drained([], b, Stopped)
      else
        var d := Drain(b[r.end..], accepts);
        Drained([r] + d.requests, d.rest, d.fate)
  }

  /** Draining takes from the front of the stream and leaves the rest of it in order. */
  lemma {:induction false} DrainConserves(b: seq<Byte>, more: seq<Byte>, accepts: string -> bool)
    requires |b| <= BUFFER_SIZE
    ensures var d := Drain(b, accepts);
            && Greedy(b + more, accepts) == d.requests + (if d.fate.Open? then Greedy(d.rest + more, accepts) else [])
            && FateOf(b + more, accepts) == (if d.fate.Open? then FateOf(d.rest + more, accepts) else d.fate)
            && (d.fate.Open? ==> Parse(d.rest).Incomplete?)
    decreases |b|
  {
    hide Parse, Answerable, Greedy, FateOf;
    var r := Parse(b);
    if r.Incomplete? {
      assert [] + Greedy(b + more, accepts) == Greedy(b + more, accepts);
    } else {
      StreamStep(b, more, accepts);
      if r.Complete? && Answerable(r.request, accepts) {
        var rest := b[r.request.end..];
        DrainConserves(rest, more, accepts);
        var d := Drain(rest, accepts);
        var tail := if d.fate.Open? then Greedy(d.rest + more, accepts) else [];
        assert [r.request] + (d.requests + tail) == ([r.request] + d.requests) + tail;
      }
    }
  }

  /** A stream whose front is settled: one request is answered and the rest remains, or nothing more is. */
  lemma StreamStep(b: seq<Byte>, more: seq<Byte>, accepts: string -> bool)
    requires |b| <= BUFFER_SIZE && !Parse(b).Incomplete?
    ensures var r := Parse(b);
            if r.Complete? && Answerable(r.request, accepts) then
              var rest := b[r.request.end..] + more;
              && Greedy(b + more, accepts) == [r.request] + Greedy(rest, accepts)
              && FateOf(b + more, accepts) == FateOf(rest, accepts)
            else
              Greedy(b + more, accepts) == [] && FateOf(b + more, accepts) == if r.Bad? then Refused else Stopped
  {
    hide Parse, Answerable;
    ParseStable(b, more);
    ViewStable(b, more);
    var r := Parse(b);
    if r.Complete? { assert (b + more)[r.request.end..] == b[r.request.end..] + more; }
  }

  /** What the buffer has settled, a longer view of the stream does not change. */
  lemma ViewStable(b: seq<Byte>, more: seq<Byte>)
    requires |b| <= BUFFER_SIZE && !Parse(b).Incomplete?
    ensures Parse(View(b + more)) == Parse(b)
  {
    hide Parse;
    var v := View(b + more);
    assert v == b + v[|b|..];
    ParseStable(b, v[|b|..]);
  }

  /** A full buffer without a whole request will never hold one. */
  lemma FullIsStuck(b: seq<Byte>, more: seq<Byte>, accepts: string -> bool)
    requires |b| == BUFFER_SIZE && Parse(b).Incomplete?
    ensures Greedy(b + more, accepts) == [] && FateOf(b + more, accepts) == Open
  {
    hide Parse, Answerable;
    var s := b + more;
    assert s[..BUFFER_SIZE] == b && View(s) == b;
    if Parse(s).Complete? && Parse(s).request.end <= BUFFER_SIZE {
      ParseWindow(s, BUFFER_SIZE);
    }
  }

  lemma IncompleteIsSilent(b: seq<Byte>, accepts: string -> bool)
    requires Parse(b).Incomplete?
    ensures Greedy(b, accepts) == []
    ensures |b| <= BUFFER_SIZE ==> FateOf(b, accepts) == Open
  {
    hide Parse, Answerable;
  }

  // ---- the loops ----

  /** What the operating system does on a read: hands over some bytes, is interrupted, or fails. */
  datatype Event = Arrive(atMost: nat) | Interrupt | Fail

  /**
   * Why a connection ended; Running when the events ran out first. Died is the end of the whole program, in the
   * parser or in the answer.
   */
  datatype Ending =
    | Running | EndOfStream | Halted | Died | BufferFull | ReadFailed | WriteFailed | PrefixTooLong | NotHandedOver
    | AnsweredByBalancer

  /** What was sent is an initial part of what a stream asks for, and how it ended is the stream's fate. */
  ghost predicate Faithful(stream: seq<Byte>, sent: seq<Request>, e: Ending, accepts: string -> bool) {
    && sent <= Greedy(stream, accepts)
    && (e == EndOfStream || e == BufferFull ==> sent == Greedy(stream, accepts) && FateOf(stream, accepts) == Open)
    && (e == Halted ==> sent == Greedy(stream, accepts) && FateOf(stream, accepts) == Refused)
    && (e == Died ==> sent == Greedy(stream, accepts) && FateOf(stream, accepts) == Stopped)
  }

  /** How many reads hand something over. */
  function Arrivals(events: seq<Event>): nat {
    if events == [] then 0 else Arrivals(events[..|events| - 1]) + if events[|events| - 1].Arrive? then 1 else 0
  }

  /**
   * The books of a connection: how its end came about, and what it has sent of the bytes read so far. While it
   * waits, and also when a read fails, nothing that could be sent is held back.
   */
  ghost predicate Accounted(prefix: seq<Byte>, stream: seq<Byte>, events: seq<Event>, writable: nat,
                            sent: seq<Request>, e: Ending, read: nat, accepts: string -> bool) {
    && read <= |stream| && |sent| <= writable
    && (e == Running || e == ReadFailed ==> sent == Greedy(prefix + stream[..read], accepts))
    && (e == Running ==> Fail !in events && Arrivals(events) <= read)
    && (e == ReadFailed ==> Fail in events)
    && (e == WriteFailed ==> |sent| == writable)
    && (e == EndOfStream ==> read == |stream|)
  }

  ghost predicate Closed(prefix: seq<Byte>, stream: seq<Byte>, events: seq<Event>, writable: nat,
                         sent: seq<Request>, e: Ending, read: nat, accepts: string -> bool) {
    && e != PrefixTooLong && e != NotHandedOver && e != AnsweredByBalancer
    && Faithful(prefix + stream, sent, e, accepts)
    && Accounted(prefix, stream, events, writable, sent, e, read, accepts)
  }

  class Buffer {
    const bytes: array<Byte>
    var pos: nat

    ghost predicate Valid()
      reads this
    {
      bytes.Length == BUFFER_SIZE && pos <= BUFFER_SIZE
    }

    ghost function Held(): seq<Byte>
      requires Valid()
      reads this, bytes
    {
      bytes[..pos]
    }

    constructor ()
      ensures Valid() && Held() == [] && fresh(bytes)
    {
      bytes := new Byte[BUFFER_SIZE](_ => 0);
      pos := 0;
    }

    /** Bytes read from the stream go in after those already held. */
    method Append(chunk: seq<Byte>)
      requires Valid() && pos + |chunk| <= BUFFER_SIZE
      modifies this, bytes
      ensures Valid() && Held() == old(Held()) + chunk
    {
      for i := 0 to |chunk|
        invariant pos == old(pos)
        invariant bytes[..pos + i] == old(bytes[..pos]) + chunk[..i]
      {
        bytes[pos + i] := chunk[i];
      }
      pos := pos + |chunk|;
    }

    /** Removes the first `end` bytes by moving the others down in place. */
    method Compact(end: nat)
      requires Valid() && 0 < end <= pos
      modifies this, bytes
      ensures Valid() && Held() == old(Held())[end..]
    {
      if end >= pos {
        pos := 0;
      } else {
        ghost var was := bytes[..];
        for i := 0 to pos - end
          invariant pos == old(pos)
          invariant forall j :: 0 <= j < i ==> bytes[j] == was[end + j]
          invariant forall j :: i <= j < BUFFER_SIZE ==> bytes[j] == was[j]
        {
          bytes[i] := bytes[end + i];
        }
        pos := pos - end;
      }
    }
  }

  lemma DrainStep(b: seq<Byte>, accepts: string -> bool)
    ensures Parse(b).Incomplete? ==> Drain(b, accepts) == Drained([], b, Open)
    ensures Parse(b).Bad? ==> Drain(b, accepts) == Drained([], b, Refused)
    ensures Parse(b).Crash? ==> Drain(b, accepts) == Drained([], b, Stopped)
    ensures Parse(b).Complete? ==>
              var r := Parse(b).request;
              var d := Drain(b[r.end..], accepts);
              Drain(b, accepts) ==
                if Answerable(r, accepts) then Drained([r] + d.requests, d.rest, d.fate) else Drained([], b, Stopped)
    ensures b == [] ==> Parse(b).Incomplete?
  {
    hide FindSeparator, PostAt, Answerable;
  }

  /** What is still to come of draining `b` after `out` has been sent. */
  ghost predicate Draining(sent: seq<Request>, whole: Drained, out: seq<Request>, b: seq<Byte>,
                           accepts: string -> bool)
  {
    && sent <= out
    && out + Drain(b, accepts).requests == sent + whole.requests
    && Drain(b, accepts).rest == whole.rest && Drain(b, accepts).fate == whole.fate
  }

  lemma DrainingNext(sent: seq<Request>, whole: Drained, out: seq<Request>, b: seq<Byte>, b': seq<Byte>,
                     accepts: string -> bool)
    requires Draining(sent, whole, out, b, accepts) && Parse(b).Complete? && b' == b[Parse(b).request.end..]
    requires Answerable(Parse(b).request, accepts)
    ensures Draining(sent, whole, out + [Parse(b).request], b', accepts)
    ensures out <= sent + whole.requests
  {
    hide Parse, Drain, Answerable;
    DrainStep(b, accepts);
    var r, d := Parse(b).request, Drain(b', accepts);
    assert (out + [r]) + d.requests == out + ([r] + d.requests);
  }

  /** Draining ends at a buffer that holds no request to answer. */
  lemma DrainingDone(sent: seq<Request>, whole: Drained, out: seq<Request>, b: seq<Byte>, accepts: string -> bool)
    requires Draining(sent, whole, out, b, accepts)
    requires Parse(b).Complete? ==> !Answerable(Parse(b).request, accepts)
    ensures out == sent + whole.requests && whole.rest == b
    ensures whole.fate == if Parse(b).Incomplete? then Open else if Parse(b).Bad? then Refused else Stopped
  {
    hide Parse, Drain, Answerable;
    DrainStep(b, accepts);
    assert out + [] == out;
  }

  /** How a connection whose buffer has been drained goes on. */
  function After(f: Fate): Ending {
    match f
    case Open => Running
    case Refused => Halted
    case Stopped => Died
  }

  /** The inner loop: answers every whole request in the buffer, as long as answers can be found and written. */
  method DrainBuffer(b: Buffer, sent: seq<Request>, writable: nat, ghost whole: Drained, accepts: string -> bool)
    returns (out: seq<Request>, e: Ending)
    requires b.Valid() && whole == Drain(b.Held(), accepts)
    modifies b, b.bytes
    ensures b.Valid()
    ensures e == WriteFailed || (e == After(whole.fate) && out == sent + whole.requests)
    ensures e == Running ==> b.Held() == whole.rest
    ensures e == WriteFailed ==> sent <= out <= sent + whole.requests && |out| == writable
    ensures |sent| <= writable ==> |out| <= writable
  {
    hide Parse, Drain, AnswerTo, Answerable;
    out := sent;
    while b.pos > 0
      invariant b.Valid() && Draining(sent, whole, out, b.Held(), accepts)
      invariant |sent| <= writable ==> |out| <= writable
      decreases b.pos
    {
      ghost var held := b.Held();
      var r := ParseRequest(b.bytes[..b.pos]);
      if !r.Complete? {
        DrainingDone(sent, whole, out, held, accepts);
        return out, if r.Incomplete? then Running else if r.Bad? then Halted else Died;
      }
      var answer := RespondTo(r.request, accepts);
      StopsIff(r.request, accepts);
      if answer == Stops {
        DrainingDone(sent, whole, out, held, accepts);
        return out, Died;
      }
      DrainingNext(sent, whole, out, held, held[r.request.end..], accepts);
      if |out| == writable {
        return out, WriteFailed;
      }
      out := out + [r.request];
      b.Compact(r.request.end);
    }
    DrainStep([], accepts);
    assert b.Held() == [];
    DrainingDone(sent, whole, out, [], accepts);
    e := Running;
  }

  // ---- what every step keeps ----

  lemma Regroup(a: seq<Request>, b: seq<Request>, c: seq<Request>)
    ensures a + (b + c) == (a + b) + c && a + b <= a + (b + c)
    ensures c == [] ==> a + (b + c) == a + b
  {
    assert a + (b + c) == (a + b) + c;
  }

  /** Whatever comes next, the stream seen so far yields what was sent, and then what the buffer yields. */
  ghost predicate Ahead(seen: seq<Byte>, sent: seq<Request>, held: seq<Byte>, accepts: string -> bool) {
    forall more :: Goes(seen + more, sent, held + more, accepts)
  }

  /** A stream goes on, after the requests sent, as its rest does. */
  ghost predicate Goes(s: seq<Byte>, sent: seq<Request>, rest: seq<Byte>, accepts: string -> bool) {
    Greedy(s, accepts) == sent + Greedy(rest, accepts) && FateOf(s, accepts) == FateOf(rest, accepts)
  }

  lemma AheadStart(seen: seq<Byte>, accepts: string -> bool)
    ensures Ahead(seen, [], seen, accepts)
  {
    hide Greedy, FateOf;
  }

  lemma AheadQuiet(seen: seq<Byte>, sent: seq<Request>, held: seq<Byte>, accepts: string -> bool)
    requires Ahead(seen, sent, held, accepts) && Parse(held).Incomplete?
    ensures Greedy(seen, accepts) == sent
  {
    hide Greedy, FateOf, Parse;
    IncompleteIsSilent(held, accepts);
    assert seen + [] == seen && held + [] == held;
    assert Goes(seen + [], sent, held + [], accepts);
  }

  lemma AheadDrained(seen: seq<Byte>, sent: seq<Request>, held: seq<Byte>, d: Drained, accepts: string -> bool)
    requires Ahead(seen, sent, held, accepts) && |held| <= BUFFER_SIZE && d == Drain(held, accepts) && d.fate.Open?
    ensures Ahead(seen, sent + d.requests, d.rest, accepts)
  {
    hide Greedy, FateOf, Drain;
    forall more ensures Goes(seen + more, sent + d.requests, d.rest + more, accepts) {
      assert Goes(seen + more, sent, held + more, accepts);
      DrainConserves(held, more, accepts);
      Regroup(sent, d.requests, Greedy(d.rest + more, accepts));
    }
  }

  lemma AheadRead(seen: seq<Byte>, sent: seq<Request>, held: seq<Byte>, chunk: seq<Byte>, accepts: string -> bool)
    requires Ahead(seen, sent, held, accepts)
    ensures Ahead(seen + chunk, sent, held + chunk, accepts)
  {
    hide Goes;
    forall more ensures Goes(seen + chunk + more, sent, held + chunk + more, accepts) {
      assert seen + chunk + more == seen + (chunk + more) && held + chunk + more == held + (chunk + more);
      assert Goes(seen + (chunk + more), sent, held + (chunk + more), accepts);
    }
  }

  /** One read: bytes move from the unread part of the stream to the buffer. */
  lemma OneRead(prefix: seq<Byte>, stream: seq<Byte>, read: nat, n: nat, sent: seq<Request>, held: seq<Byte>,
                accepts: string -> bool)
    requires read + n <= |stream| && Ahead(prefix + stream[..read], sent, held, accepts)
    ensures Ahead(prefix + stream[..read + n], sent, held + stream[read..read + n], accepts)
  {
    hide Ahead;
    AheadRead(prefix + stream[..read], sent, held, stream[read..read + n], accepts);
    assert prefix + stream[..read] + stream[read..read + n] == prefix + stream[..read + n];
  }

  lemma NothingLost(prefix: seq<Byte>, stream: seq<Byte>, read: nat, sent: seq<Request>, held: seq<Byte>,
                    accepts: string -> bool)
    requires read <= |stream| && Ahead(prefix + stream[..read], sent, held, accepts)
    ensures Goes(prefix + stream, sent, held + stream[read..], accepts)
  {
    hide Goes;
    assert prefix + stream[..read] + stream[read..] == prefix + stream;
    assert Goes(prefix + stream[..read] + stream[read..], sent, held + stream[read..], accepts);
  }

  lemma ArrivalsNext(events: seq<Event>, t: nat)
    requires t < |events|
    ensures Arrivals(events[..t + 1]) == Arrivals(events[..t]) + if events[t].Arrive? then 1 else 0
  {
    assert events[..t + 1][..t] == events[..t];
  }

  /** What both loops keep after `t` events and `read` bytes. */
  ghost predicate Steady(prefix: seq<Byte>, stream: seq<Byte>, events: seq<Event>, t: nat, read: nat,
                         sent: seq<Request>, held: seq<Byte>, accepts: string -> bool) {
    && t <= |events| && read <= |stream| && Arrivals(events[..t]) <= read && Fail !in events[..t]
    && Ahead(prefix + stream[..read], sent, held, accepts)
  }

  lemma SteadyEvent(prefix: seq<Byte>, stream: seq<Byte>, events: seq<Event>, t: nat, read: nat,
                    sent: seq<Request>, held: seq<Byte>, n: nat, accepts: string -> bool)
    requires Steady(prefix, stream, events, t, read, sent, held, accepts)
    requires t < |events| && read + n <= |stream| && events[t] != Fail && (events[t].Arrive? <==> n > 0)
    ensures Steady(prefix, stream, events, t + 1, read + n, sent, held + stream[read..read + n], accepts)
  {
    hide Ahead;
    ArrivalsNext(events, t);
    OneRead(prefix, stream, read, n, sent, held, accepts);
    assert events[..t + 1] == events[..t] + [events[t]];
  }

  lemma SteadyWaits(prefix: seq<Byte>, stream: seq<Byte>, events: seq<Event>, t: nat, read: nat,
                    sent: seq<Request>, held: seq<Byte>, accepts: string -> bool)
    requires Steady(prefix, stream, events, t, read, sent, held, accepts) && Parse(held).Incomplete?
    ensures sent == Greedy(prefix + stream[..read], accepts) && sent <= Greedy(prefix + stream, accepts)
  {
    hide Ahead, Parse, Greedy, FateOf;
    AheadQuiet(prefix + stream[..read], sent, held, accepts);
    NothingLost(prefix, stream, read, sent, held, accepts);
  }

  lemma SteadyEnds(prefix: seq<Byte>, stream: seq<Byte>, events: seq<Event>, t: nat, read: nat,
                   sent: seq<Request>, held: seq<Byte>, accepts: string -> bool)
    requires Steady(prefix, stream, events, t, read, sent, held, accepts) && Parse(held).Incomplete?
    requires |held| <= BUFFER_SIZE && (|held| == BUFFER_SIZE || read == |stream|)
    ensures sent == Greedy(prefix + stream, accepts) && FateOf(prefix + stream, accepts) == Open
  {
    hide Ahead, Parse, Greedy, FateOf;
    NothingLost(prefix, stream, read, sent, held, accepts);
    var unread := stream[read..];
    if |held| == BUFFER_SIZE {
      FullIsStuck(held, unread, accepts);
    } else {
      assert held + unread == held;
      IncompleteIsSilent(held, accepts);
    }
    assert sent + [] == sent;
  }

  /** A connection that stops while it waits for bytes has sent all that the bytes read so far ask for. */
  lemma SteadyCloses(prefix: seq<Byte>, stream: seq<Byte>, events: seq<Event>, t: nat, read: nat,
                     sent: seq<Request>, held: seq<Byte>, writable: nat, e: Ending, accepts: string -> bool)
    requires Steady(prefix, stream, events, t, read, sent, held, accepts) && Parse(held).Incomplete?
    requires |sent| <= writable && |held| <= BUFFER_SIZE
    requires || (e == Running && t == |events|)
             || (e == ReadFailed && t < |events| && events[t] == Fail)
             || (e == EndOfStream && read == |stream|)
             || (e == BufferFull && |held| == BUFFER_SIZE)
    ensures Closed(prefix, stream, events, writable, sent, e, read, accepts)
  {
    hide Ahead, Parse, Greedy;
    SteadyWaits(prefix, stream, events, t, read, sent, held, accepts);
    if e == EndOfStream || e == BufferFull { SteadyEnds(prefix, stream, events, t, read, sent, held, accepts); }
    assert t == |events| ==> events[..t] == events;
  }

  /** Draining keeps the books, or ends the connection with everything sent that could be. */
  lemma SteadyDrained(prefix: seq<Byte>, stream: seq<Byte>, events: seq<Event>, t: nat, read: nat,
                      sent: seq<Request>, held: seq<Byte>, d: Drained, out: seq<Request>, writable: nat, e: Ending,
                      accepts: string -> bool)
    requires Steady(prefix, stream, events, t, read, sent, held, accepts)
    requires |held| <= BUFFER_SIZE && d == Drain(held, accepts)
    requires e == WriteFailed || (e == After(d.fate) && out == sent + d.requests)
    requires e == WriteFailed ==> sent <= out <= sent + d.requests && |out| == writable
    requires |out| <= writable
    ensures e == Running ==> Steady(prefix, stream, events, t, read, out, d.rest, accepts) && Parse(d.rest).Incomplete?
    ensures e != Running ==> Closed(prefix, stream, events, writable, out, e, read, accepts)
  {
    hide Ahead, Parse, Greedy, FateOf, Drain;
    NothingLost(prefix, stream, read, sent, held, accepts);
    DrainConserves(held, stream[read..], accepts);
    Regroup(sent, d.requests, if d.fate.Open? then Greedy(d.rest + stream[read..], accepts) else []);
    if e == Running { AheadDrained(prefix + stream[..read], sent, held, d, accepts); }
  }

  /** A read hands over at least one byte while there are any, and never more than fit. */
  function ReadSize(atMost: nat, space: nat, unread: nat): (n: nat)
    requires space > 0
    ensures n <= space && n <= unread && (n == 0 <==> unread == 0)
  {
    var wanted := if atMost == 0 then 1 else atMost;
    var n := if wanted < space then wanted else space;
    if n < unread then n else unread
  }

  lemma SteadyStart(prefix: seq<Byte>, stream: seq<Byte>, events: seq<Event>, accepts: string -> bool)
    ensures Steady(prefix, stream, events, 0, 0, [], prefix, accepts)
  {
    hide Ahead;
    AheadStart(prefix, accepts);
    assert prefix + stream[..0] == prefix;
  }

  /** One read: how many bytes it hands over, or why there will be no more. */
  method Poll(event: Event, space: nat, unread: nat) returns (n: nat, e: Ending)
    requires space > 0
    ensures n <= space && n <= unread
    ensures e == Running || e == ReadFailed || e == EndOfStream
    ensures e == ReadFailed <==> event == Fail
    ensures e == EndOfStream <==> event.Arrive? && unread == 0
    ensures e == Running ==> (event.Arrive? <==> n > 0)
  {
    match event
    case Interrupt => return 0, Running;
    case Fail => return 0, ReadFailed;
    case Arrive(atMost) =>
      n := ReadSize(atMost, space, unread);
      return n, if n == 0 then EndOfStream else Running;
  }

  /**
   * The loop on a descriptor that comes with bytes already read. However the stream is cut into reads, what is sent
   * is at every moment an initial part of one greedy parse of the whole stream, and all of it once the stream ends.
   */
  method HandleRawConn(prefix: seq<Byte>, stream: seq<Byte>, events: seq<Event>, writable: nat, accepts: string -> bool)
    returns (sent: seq<Request>, e: Ending, read: nat)
    ensures |prefix| <= BUFFER_SIZE ==> Closed(prefix, stream, events, writable, sent, e, read, accepts)
    ensures |prefix| > BUFFER_SIZE ==> sent == [] && e == PrefixTooLong
  {
    hide Parse, Greedy, FateOf, Drain, Steady, Ahead, Arrivals, Closed, After;
    var b := new Buffer();
    sent, read := [], 0;
    if |prefix| > 0 {
      if |prefix| > BUFFER_SIZE {
        return [], PrefixTooLong, 0;
      }
      b.Append(prefix);
    }
    var t := 0;
    assert b.Held() == prefix;
    SteadyStart(prefix, stream, events, accepts);
    while true
      invariant fresh(b) && fresh(b.bytes) && b.Valid() && t <= |events| && read <= |stream| && |sent| <= writable
      invariant Steady(prefix, stream, events, t, read, sent, b.Held(), accepts)
      decreases |events| - t
    {
      ghost var held, before := b.Held(), sent;
      sent, e := DrainBuffer(b, sent, writable, Drain(held, accepts), accepts);
      SteadyDrained(prefix, stream, events, t, read, before, held, Drain(held, accepts), sent, writable, e, accepts);
      if e != Running {
        return;
      }
      if b.pos == BUFFER_SIZE {
        SteadyCloses(prefix, stream, events, t, read, sent, b.Held(), writable, BufferFull, accepts);
        return sent, BufferFull, read;
      }
      if t == |events| {
        SteadyCloses(prefix, stream, events, t, read, sent, b.Held(), writable, Running, accepts);
        return sent, Running, read;
      }
      var n;
      n, e := Poll(events[t], BUFFER_SIZE - b.pos, |stream| - read);
      if e != Running {
        SteadyCloses(prefix, stream, events, t, read, sent, b.Held(), writable, e, accepts);
        return;
      }
      SteadyEvent(prefix, stream, events, t, read, sent, b.Held(), n, accepts);
      b.Append(stream[read..read + n]);
      read, t := read + n, t + 1;
    }
  }

  /** The other form of the loop: it reads first and has no bytes to start from. */
  method HandleConn(stream: seq<Byte>, events: seq<Event>, writable: nat, accepts: string -> bool)
    returns (sent: seq<Request>, e: Ending, read: nat)
    ensures Closed([], stream, events, writable, sent, e, read, accepts)
  {
    hide Parse, Greedy, FateOf, Drain, Steady, Ahead, Arrivals, Closed, After;
    var b := new Buffer();
    sent, read := [], 0;
    var t := 0;
    DrainStep([], accepts);
    SteadyStart([], stream, events, accepts);
    while true
      invariant fresh(b) && fresh(b.bytes) && b.Valid() && t <= |events| && read <= |stream| && |sent| <= writable
      invariant Steady([], stream, events, t, read, sent, b.Held(), accepts) && Parse(b.Held()).Incomplete?
      decreases |events| - t
    {
      if b.pos == BUFFER_SIZE {
        SteadyCloses([], stream, events, t, read, sent, b.Held(), writable, BufferFull, accepts);
        return sent, BufferFull, read;
      }
      if t == |events| {
        SteadyCloses([], stream, events, t, read, sent, b.Held(), writable, Running, accepts);
        return sent, Running, read;
      }
      var n;
      n, e := Poll(events[t], BUFFER_SIZE - b.pos, |stream| - read);
      if e != Running {
        SteadyCloses([], stream, events, t, read, sent, b.Held(), writable, e, accepts);
        return;
      }
      SteadyEvent([], stream, events, t, read, sent, b.Held(), n, accepts);
      b.Append(stream[read..read + n]);
      read, t := read + n, t + 1;
      ghost var held, before := b.Held(), sent;
      sent, e := DrainBuffer(b, sent, writable, Drain(held, accepts), accepts);
      SteadyDrained([], stream, events, t, read, before, held, Drain(held, accepts), sent, writable, e, accepts);
      if e != Running {
        return;
      }
    }
  }

  // ---- a request that stops the program ----

  /** An empty object, sent to be scored: 41 bytes. */
  function EmptyPost(): seq<Byte> { Plain([50], [123, 125]).Bytes() }

  /** Alone or followed by anything, it gets no answer and stops the program. */
  lemma EmptyPostStops(more: seq<Byte>, accepts: string -> bool)
    ensures |EmptyPost()| == 41
    ensures Parse(EmptyPost() + more) == Complete(Request(PostScore, [123, 125], 41))
    ensures Greedy(EmptyPost() + more, accepts) == [] && FateOf(EmptyPost() + more, accepts) == Stopped
  {
    hide Parse, Answerable, Lines;
    var post, p := EmptyPost(), Plain([50], [123, 125]);
    PlainHeader([50], [123, 125]);
    assert Value([50]) == 2 by { TwoIsTwo([50]); }
    PostRoundTrip(p, more);
    PostRoundTrip(p, []);
    assert post + [] == post;
    ViewStable(post, more);
    EmptyObjectStops(Request(PostScore, [123, 125], 41), accepts);
  }

  lemma TwoIsTwo(digits: seq<Byte>)
    requires digits == [50]
    ensures Numeral(digits) && Value(digits) == 2
  {
    assert digits[..0] == [];
  }

  /** A whole request with an answer gets it if and only if it takes at most 8192 bytes. */
  lemma AnsweredIffItFits(m: seq<Byte>, more: seq<Byte>, accepts: string -> bool)
    requires Parse(m).Complete? && Parse(m).request.end == |m| && Answerable(Parse(m).request, accepts)
    ensures Greedy(m + more, accepts) != [] <==> |m| <= 8192
  {
    hide Parse, Answerable;
    ParseStable(m, more);
  }

  /** A scoring request without a length, within the buffer, is turned away: the program goes on. */
  lemma NoLengthIsRefused(target: seq<Byte>, lines: seq<seq<Byte>>, more: seq<Byte>, accepts: string -> bool)
    requires Unbroken(target) && AllClean(lines) && |Lines([POST + target] + lines)| + 2 <= 8192
    requires forall i :: 0 <= i < |lines| ==> |lines[i]| < 15 || !SameLetters(lines[i][..15], CONTENT_LENGTH)
    ensures var s := Lines([POST + target] + lines) + ([13, 10] + more);
            Greedy(s, accepts) == [] && FateOf(s, accepts) == Refused
  {
    hide Parse, Lines, Answerable;
    var h := Lines([POST + target] + lines) + ([13, 10] + []);
    NoLengthIsBad(target, lines, []);
    NoLengthIsBad(target, lines, more);
    assert h + more == Lines([POST + target] + lines) + ([13, 10] + more);
    ViewStable(h, more);
  }
}
