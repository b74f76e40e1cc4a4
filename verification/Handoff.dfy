/** How the balancer hands a connection over: one message with a two-byte length and the bytes already read. */
module Handoff {
  import opened Sequences
  import opened Http
  import opened Respond
  import opened Connection

  const MAX_PREFIX: nat := 16384

  /** The message: little-endian length, then the bytes, cut to the largest prefix. */
  function Encode(prefix: seq<Byte>): seq<Byte> {
    var p := if |prefix| > MAX_PREFIX then prefix[..MAX_PREFIX] else prefix;
    [|p| % 256, |p| / 256 % 256] + p
  }

  function Little(lo: int, hi: int): int { lo + 256 * hi }

  /** Accepts a message only when its length field says exactly how long it is. */
  function Decode(message: seq<Byte>): Option<seq<Byte>> {
    if |message| < 2 then None
    else
      var plen := Little(message[0], message[1]);
      if plen > MAX_PREFIX || |message| != 2 + plen then None else Some(message[2..])
  }

  /** The messages accepted are exactly those that some prefix of allowed length encodes to. */
  lemma DecodeIff(message: seq<Byte>, p: seq<Byte>)
    ensures Decode(message) == Some(p) <==> |p| <= MAX_PREFIX && message == Encode(p)
  {
    if |p| <= MAX_PREFIX && message == Encode(p) {
      assert Little(message[0], message[1]) == |p|;
      assert message[2..] == p;
    }
    if Decode(message) == Some(p) {
      var n := Little(message[0], message[1]);
      assert n % 256 == message[0] && n / 256 % 256 == message[1];
      assert message == [message[0], message[1]] + message[2..];
    }
  }

  /** The message of a prefix: its length, low byte first, and its bytes. */
  lemma MessageIs(p: seq<Byte>)
    requires |p| <= 16_384
    ensures Encode(p) == [|p| % 256, |p| / 256] + p
  {}

  /**
   * How much of a stream of `length` bytes the balancer has when it hands the connection over, `n` bytes being there
   * already: what is ready until the buffer is full, nothing is left, or the peer has closed; -1 when it gives up.
   */
  function ReadyCount(events: seq<Event>, length: nat, n: nat): (r: int)
    requires n <= length && n <= MAX_PREFIX
    ensures r == -1 || (n <= r <= length && r <= MAX_PREFIX)
    decreases |events|
  {
    if n == MAX_PREFIX || events == [] then n
    else
      match events[0]
      case Interrupt => ReadyCount(events[1..], length, n)
      case Fail => -1
      case Arrive(atMost) =>
        var r := ReadSize(atMost, MAX_PREFIX - n, length - n);
        if r > 0 then ReadyCount(events[1..], length, n + r) else if n > 0 then n else -1
  }

  method ReadReadyPrefix(stream: seq<Byte>, events: seq<Event>) returns (n: int)
    ensures n == ReadyCount(events, |stream|, 0)
  {
    n := 0;
    var t := 0;
    while n < MAX_PREFIX && t < |events|
      invariant 0 <= n <= |stream| && n <= MAX_PREFIX && 0 <= t <= |events|
      invariant ReadyCount(events[t..], |stream|, n) == ReadyCount(events, |stream|, 0)
      decreases |events| - t
    {
      assert events[t..][0] == events[t] && events[t..][1..] == events[t + 1..];
      match events[t] {
        case Interrupt =>
        case Fail => return -1;
        case Arrive(atMost) =>
          var r := ReadSize(atMost, MAX_PREFIX - n, |stream| - n);
          if r == 0 {
            if n == 0 {
              return -1;
            }
            break;
          }
          n := n + r;
      }
      t := t + 1;
    }
  }

  /** The balancer gives up only on an error or on a stream that ended before its first byte. */
  lemma {:induction false} GivesUpIff(events: seq<Event>, length: nat, n: nat)
    requires n <= length && n <= MAX_PREFIX && Fail !in events
    ensures ReadyCount(events, length, n) == -1 <==> length == 0 && Arrivals(events) > 0
    decreases |events|
  {
    if events != [] {
      assert events == [events[0]] + events[1..];
      ArrivalsFirst(events[0], events[1..]);
      assert forall ev :: ev in events[1..] ==> ev in events;
      match events[0]
      case Interrupt => GivesUpIff(events[1..], length, n);
      case Fail =>
      case Arrive(atMost) =>
        if n < MAX_PREFIX {
          var r := ReadSize(atMost, MAX_PREFIX - n, length - n);
          if r > 0 { GivesUpIff(events[1..], length, n + r); }
        }
    }
  }

  lemma {:induction false} ArrivalsFirst(ev: Event, events: seq<Event>)
    ensures Arrivals([ev] + events) == Arrivals(events) + if ev.Arrive? then 1 else 0
    decreases |events|
  {
    if events == [] {
      assert [ev] + events == [ev] && [ev][..0] == [];
    } else {
      var m := |events| - 1;
      assert ([ev] + events)[..m + 1] == [ev] + events[..m];
      ArrivalsFirst(ev, events[..m]);
    }
  }

  /** An error while it still reads makes it give up, whatever it has and whatever follows. */
  lemma {:induction false} ErrorGivesUp(before: seq<Event>, after: seq<Event>, length: nat, n: nat)
    requires n <= length && n <= MAX_PREFIX && Fail !in before
    requires 0 <= ReadyCount(before, length, n) < length && ReadyCount(before, length, n) < MAX_PREFIX
    ensures ReadyCount(before + [Fail] + after, length, n) == -1
    decreases |before|
  {
    var events := before + [Fail] + after;
    if before == [] {
      assert events[0] == Fail;
    } else {
      assert events[0] == before[0] && events[1..] == before[1..] + [Fail] + after;
      assert forall ev :: ev in before[1..] ==> ev in before;
      match before[0]
      case Interrupt => ErrorGivesUp(before[1..], after, length, n);
      case Fail =>
      case Arrive(atMost) =>
        var r := ReadSize(atMost, MAX_PREFIX - n, length - n);
        if r > 0 { ErrorGivesUp(before[1..], after, length, n + r); }
    }
  }

  /** It takes all that is ready: everything, a full buffer, or at least a byte for every read. */
  lemma {:induction false} TakesAllReady(events: seq<Event>, length: nat, n: nat)
    requires n <= length && n <= MAX_PREFIX && Fail !in events && ReadyCount(events, length, n) >= 0
    ensures var r := ReadyCount(events, length, n); r == MAX_PREFIX || r == length || n + Arrivals(events) <= r
    decreases |events|
  {
    if events != [] {
      assert events == [events[0]] + events[1..];
      ArrivalsFirst(events[0], events[1..]);
      assert forall ev :: ev in events[1..] ==> ev in events;
      match events[0]
      case Interrupt => TakesAllReady(events[1..], length, n);
      case Fail =>
      case Arrive(atMost) =>
        if n < MAX_PREFIX {
          var r := ReadSize(atMost, MAX_PREFIX - n, length - n);
          if r > 0 { TakesAllReady(events[1..], length, n + r); }
        }
    }
  }

  // ---- the readiness check ----

  /** How many bytes the balancer peeks at. */
  const PEEK: nat := 64

  /** With `visible` bytes of the stream there, the balancer takes it for a readiness check and answers it itself. */
  predicate PeekAnswers(stream: seq<Byte>, visible: nat) {
    Min(Min(visible, PEEK), |stream|) >= 10 && GET <= stream
  }

  /** Looks at the first bytes without taking them. */
  method HandleReadyPeek(stream: seq<Byte>, visible: nat) returns (answered: bool)
    ensures answered <==> PeekAnswers(stream, visible)
  {
    var n := Min(Min(visible, PEEK), |stream|);
    var peek := stream[..n];
    if n < 10 {
      return false;
    }
    assert GET <= stream <==> stream[..10] == GET;
    assert peek[..10] == stream[..10];
    return peek[..10] == GET;
  }

  // ---- from the balancer to the worker ----

  /** The connection ran its course: no read or write failed and nothing more is awaited. */
  predicate RanItsCourse(e: Ending) {
    || e == EndOfStream || e == Halted || e == Died || e == BufferFull
    || e == PrefixTooLong || e == NotHandedOver || e == AnsweredByBalancer
  }

  /** The stream opens with a whole request that fits the worker's buffer and has an answer. */
  predicate OpensWithRequest(stream: seq<Byte>, accepts: string -> bool) {
    var r := Parse(stream);
    r.Complete? && r.request.end <= BUFFER_SIZE && Answerable(r.request, accepts)
  }

  function Kinds(rs: seq<Request>): seq<Method> {
    seq(|rs|, i requires 0 <= i < |rs| => rs[i].kind)
  }

  /** The stream is one readiness check and nothing else to answer. */
  predicate OneRequest(stream: seq<Byte>, accepts: string -> bool) {
    && OpensWithRequest(stream, accepts)
    && !OpensWithRequest(stream[Parse(stream).request.end..], accepts)
  }

  /**
   * When a connection is answered as it should be. One that the balancer answers by itself: its stream is one
   * readiness check alone. Any other: what the balancer has read fits the worker, or there is nothing to answer.
   */
  predicate ServedRight(stream: seq<Byte>, visible: nat, early: seq<Event>, accepts: string -> bool) {
    if PeekAnswers(stream, visible) then OneRequest(stream, accepts)
    else ReadyCount(early, |stream|, 0) <= BUFFER_SIZE || !OpensWithRequest(stream, accepts)
  }

  /**
   * From the balancer to the worker: the peek at `visible` bytes, the reads before the hand-over, the message, and the
   * worker's loop. A connection that runs its course gets the answers its stream asks for, in kind and order, if and
   * only if it is served right; `answers` holds the balancer's own answer too.
   */
  method Serve(stream: seq<Byte>, visible: nat, early: seq<Event>, late: seq<Event>, writable: nat,
               accepts: string -> bool)
    returns (answers: seq<Method>, sent: seq<Request>, e: Ending, n: int, read: nat)
    ensures e == AnsweredByBalancer <==> PeekAnswers(stream, visible)
    ensures answers == if e == AnsweredByBalancer then [GetReady] else Kinds(sent)
    ensures e == AnsweredByBalancer ==> sent == []
    ensures e != AnsweredByBalancer ==>
              && n == ReadyCount(early, |stream|, 0)
              && (n == -1 <==> e == NotHandedOver) && (n == -1 ==> sent == [])
              && (n > BUFFER_SIZE ==> sent == [] && e == PrefixTooLong)
              && (0 <= n <= BUFFER_SIZE ==>
                    && Faithful(stream, sent, e, accepts)
                    && Accounted(stream[..n], stream[n..], late, writable, sent, e, read, accepts))
    ensures Fail !in early && RanItsCourse(e) ==>
              (answers == Kinds(Greedy(stream, accepts)) <==> ServedRight(stream, visible, early, accepts))
  {
    hide Parse, Greedy, FateOf, ReadyCount, OpensWithRequest, OneRequest, Kinds, PeekAnswers, Answerable;
    var peeked := HandleReadyPeek(stream, visible);
    if peeked {
      BalancerAnswers(stream, visible, accepts);
      return [GetReady], [], AnsweredByBalancer, 0, 0;
    }
    KindsEmpty(Greedy(stream, accepts));
    KindsEmpty([]);
    GreedyOpens(stream, accepts);
    n := ReadReadyPrefix(stream, early);
    if n < 0 {
      if Fail !in early { EmptyGivenUp(stream, early, accepts); }
      return Kinds([]), [], NotHandedOver, n, 0;
    }
    var message := Encode(stream[..n]);
    DecodeIff(message, stream[..n]);
    var prefix := Decode(message).value;
    assert stream[..n] + stream[n..] == stream;
    sent, e, read := HandleRawConn(prefix, stream[n..], late, writable, accepts);
    answers := Kinds(sent);
  }

  lemma KindsEmpty(rs: seq<Request>)
    ensures Kinds(rs) == [] <==> rs == []
  {}

  lemma GreedyOpens(stream: seq<Byte>, accepts: string -> bool)
    ensures Greedy(stream, accepts) == [] <==> !OpensWithRequest(stream, accepts)
  {
    hide Parse, Answerable;
  }

  /** The balancer's one answer is right exactly when the stream is one readiness check. */
  lemma BalancerAnswers(stream: seq<Byte>, visible: nat, accepts: string -> bool)
    requires PeekAnswers(stream, visible)
    ensures Kinds(Greedy(stream, accepts)) == [GetReady] <==> OneRequest(stream, accepts)
  {
    ReadyKind(stream);
    hide Parse, Answerable;
    var all := Greedy(stream, accepts);
    if OpensWithRequest(stream, accepts) {
      var r := Parse(stream).request;
      var rest := stream[r.end..];
      assert all == [r] + Greedy(rest, accepts);
      GreedyOpens(rest, accepts);
      hide Greedy, OpensWithRequest;
      assert Kinds(all)[0] == GetReady && |Kinds(all)| == 1 + |Greedy(rest, accepts)|;
    } else {
      GreedyOpens(stream, accepts);
    }
  }

  lemma ReadyKind(stream: seq<Byte>)
    requires GET <= stream
    ensures Parse(stream).Complete? ==> Parse(stream).request.kind == GetReady
  {
    assert stream[0] == GET[0] != POST[0];
  }

  lemma EmptyGivenUp(stream: seq<Byte>, early: seq<Event>, accepts: string -> bool)
    requires Fail !in early && ReadyCount(early, |stream|, 0) == -1
    ensures Greedy(stream, accepts) == [] && ReadyCount(early, |stream|, 0) <= BUFFER_SIZE
  {
    GivesUpIff(early, |stream|, 0);
  }

  /** The balancer reads at most 16384 bytes ahead, and peeks at no more than it needs for ten. */
  lemma ReadsAtMost(length: nat, visible: nat, stream: seq<Byte>)
    requires length >= 16_384
    ensures ReadyCount([Arrive(length)], length, 0) == 16_384
    ensures PeekAnswers(stream, visible) <==> visible >= 10 && |stream| >= 10 && GET <= stream
  {
    var events := [Arrive(length)];
    assert events[1..] == [];
  }

  // ---- streams that are served wrongly ----

  /** "GET /index" */
  const INDEX: seq<Byte> := [71, 69, 84, 32, 47, 105, 110, 100, 101, 120]

  /** A request without a body. */
  function Ask(line: seq<Byte>): seq<Byte> { line + [32, 32, CR, LF, CR, LF] }

  lemma AskReads(line: seq<Byte>, more: seq<Byte>)
    requires line == INDEX || line == GET
    ensures Parse(Ask(line) + more) == Complete(Request(if line == GET then GetReady else Other, [], 16))
  {
    var s := Ask(line);
    assert |s| == 16 && s[0] != POST[0] && s[..10] == line && (GET <= s <==> line == GET);
    assert SeparatorAt(s, 12);
    assert forall j :: 0 <= j < 12 ==> !SeparatorAt(s, j);
    hide PostAt;
    ParseStable(s, more);
  }

  /** Nine thousand ready bytes behind a whole request that the peek lets through: the worker drops them all. */
  lemma DroppedRequest(stream: seq<Byte>, visible: nat, early: seq<Event>, accepts: string -> bool)
    requires stream == Ask(INDEX) + seq(9000, _ => 0) && early == [Arrive(9000)]
    ensures !PeekAnswers(stream, visible) && Fail !in early && ReadyCount(early, |stream|, 0) > BUFFER_SIZE
    ensures Greedy(stream, accepts) != [] && !ServedRight(stream, visible, early, accepts)
  {
    AskReads(INDEX, seq(9000, _ => 0));
    assert |stream| == 9016 && stream[5] != GET[5];
    assert early[1..] == [];
    hide Parse;
    GreedyOpens(stream, accepts);
  }

  /** Two readiness checks back to back: the balancer answers one and closes. */
  lemma SecondCheckDropped(stream: seq<Byte>, visible: nat, early: seq<Event>, accepts: string -> bool)
    requires stream == Ask(GET) + Ask(GET) && visible >= 10
    ensures PeekAnswers(stream, visible) && |Greedy(stream, accepts)| == 2
    ensures !ServedRight(stream, visible, early, accepts)
  {
    var m := Ask(GET);
    AskReads(GET, m);
    AskReads(GET, []);
    assert m + [] == m && |m| == 16 && stream[16..] == m && m[16..] == [];
    assert GET <= stream;
    hide Parse;
    assert Greedy([], accepts) == [] by { NothingAsked(accepts); }
    assert Greedy(m, accepts) == [Parse(m).request] + Greedy([], accepts);
    assert Greedy(stream, accepts) == [Parse(stream).request] + Greedy(m, accepts);
  }

  lemma NothingAsked(accepts: string -> bool)
    ensures Greedy([], accepts) == []
  {}
}
