/**
  The framing protocol of MessageRoute as a pure state machine: what one ProcessRecv call does
  with the buffered bytes and the remembered length, and what every run of arrivals and calls
  delivers.
 */
module Framing {
  import opened Bytes
  import opened Wire
  import opened Messages

  const MARKER: seq<byte> := [112, 98, 104, 0]   // "pbh" and its terminator
  const TEMP_BUFFER_SIZE := 1024
  const DEFAULT_BLOCK_SIZE := 8192

  /** "BaseCmd.reqSignin" */
  const SIGNIN_NAME: seq<byte> := [66, 97, 115, 101, 67, 109, 100, 46, 114, 101, 113, 83, 105, 103, 110, 105, 110]

  /** "BaseCmd.reqMove" */
  const MOVE_NAME: seq<byte> := [66, 97, 115, 101, 67, 109, 100, 46, 114, 101, 113, 77, 111, 118, 101]

  /** The messages that have a processor on the server. */
  datatype Message = SigninMessage(signin: Signin) | MoveMessage(move: Move)

  /** The message a processor is handed for a frame: none when the type has no processor. */
  function Deliver(utf8: Utf8, head: seq<byte>, body: seq<byte>): (r: seq<Message>)
    ensures |r| <= 1
  {
    var name := ParseCmdType(utf8, head).msg.name;
    if name == SIGNIN_NAME then [SigninMessage(ParseSignin(utf8, body).msg)]
    else if name == MOVE_NAME then [MoveMessage(ParseMove(body).msg)]
    else []
  }

  // ---------------------------------------------------------------- one ProcessRecv call

  /** What survives between calls: the receive buffer and mPreRecivesTotalLen. */
  datatype Rx = Rx(buf: seq<byte>, pre: i32)

  datatype Polled = Polled(rx: Rx, out: seq<Message>, result: bool)

  /** size() < totalLen - sizeof(int), an unsigned subtraction: below 4 it wraps to a huge bound. */
  predicate TooFew(size: nat, total: u32) { total < 4 || size < total - 4 }

  /** The block size handed to the input stream; zero or negative selects the default. */
  function BlockSize(total: u32): (b: nat)
    requires 4 <= total
    ensures 1 <= b
  {
    if 4 < total && total - 4 < TWO_31 then total - 4 else DEFAULT_BLOCK_SIZE
  }

  /** Bytes taken from a stream of `size` bytes, in blocks, to read `need` of them. */
  function Taken(size: nat, block: nat, need: nat): (n: nat)
    requires 1 <= block
    ensures n <= size
  {
    if size <= block || need <= block then Min(size, block)
    else block + Taken(size - block, block, need - block)
  }

  /** How a payload is read: dropped after some bytes, or taken whole with a head of some length. */
  datatype Cut = Dropped(taken: nat) | Whole(headLen: nat)

  /** From the head length on: `s` starts right after the total length. */
  function CutPayload(total: u32, s: seq<byte>): (c: Cut)
    requires !TooFew(|s|, total)
    ensures c.Dropped? ==> c.taken <= |s|
    ensures c.Whole? ==> 8 + c.headLen <= total <= |s| + 4
  {
    var block := BlockSize(total);
    var headLen := if |s| < 4 then 0 else ReadLittleEndian32(s).value;
    if TEMP_BUFFER_SIZE < headLen then Dropped(Taken(|s|, block, 4))
    else
      var bodyLen := ToI32((total - headLen - 8) % TWO_32);
      if bodyLen < 0 || TEMP_BUFFER_SIZE < bodyLen then Dropped(Taken(|s|, block, 4 + headLen))
      else
        assert total == headLen + 8 + bodyLen by { BodyLenExact(total, headLen); }
        Whole(headLen)
  }

  function ReadPayload(utf8: Utf8, total: u32, s: seq<byte>): Polled
    requires !TooFew(|s|, total)
  {
    match CutPayload(total, s)
    case Dropped(n) => Polled(Rx(s[n..], 0), [], false)
    case Whole(n) => Polled(Rx(s[total - 4..], 0), Deliver(utf8, s[4..4 + n], s[4 + n..total - 4]), true)
  }

  /** What reading a payload comes to, by its cut. */
  lemma PayloadOutcome(utf8: Utf8, total: u32, s: seq<byte>, whole: bool, head: seq<byte>, body: seq<byte>,
                       rest: seq<byte>)
    requires !TooFew(|s|, total)
    requires match CutPayload(total, s)
             case Dropped(n) => !whole && rest == s[n..]
             case Whole(n) => whole && rest == s[total - 4..] && head == s[4..4 + n] && body == s[4 + n..total - 4]
    ensures ReadPayload(utf8, total, s) == Polled(Rx(rest, 0), if whole then Deliver(utf8, head, body) else [], whole)
  {
  }

  lemma BodyLenExact(total: u32, headLen: u32)
    requires headLen <= TEMP_BUFFER_SIZE
    ensures var bodyLen := ToI32((total - headLen - 8) % TWO_32);
            0 <= bodyLen <= TEMP_BUFFER_SIZE <==> 0 <= total - headLen - 8 <= TEMP_BUFFER_SIZE
    ensures 0 <= total - headLen - 8 < TWO_31 ==>
              ToI32((total - headLen - 8) % TWO_32) == total - headLen - 8
  {
    var d: int := total - headLen - 8;
    if d < 0 {
      assert (d + TWO_32) % 0x1_0000_0000 == d + TWO_32;
    }
  }

  function Poll(utf8: Utf8, rx: Rx): Polled
  {
    if |rx.buf| < 8 then Polled(rx, [], false)
    else if 0 < rx.pre then
      if TooFew(|rx.buf|, rx.pre) then Polled(rx, [], false)
      else ReadPayload(utf8, rx.pre, rx.buf)
    else if rx.buf[..4] != MARKER then Polled(Rx(rx.buf[4..], 0), [], false)
    else
      var total := ReadLittleEndian32(rx.buf[4..]).value;
      var s := rx.buf[8..];
      if TooFew(|s|, total) then Polled(Rx(s, ToI32(total)), [], false)
      else ReadPayload(utf8, total, s)
  }

  // ---------------------------------------------------------------- what is on the wire

  /** A stretch of the incoming stream: a self-consistent frame, or four bytes of garbage. */
  datatype Segment = Frame(head: seq<byte>, body: seq<byte>) | Noise(word: seq<byte>)

  /**
    The frames every run can take: below 2^31 bytes, and with at least eight bytes after the
    total length, because a call that finds fewer than eight bytes gives up.
   */
  predicate WellFormed(g: Segment)
  {
    match g
    case Frame(head, body) => 4 <= |head| + |body| && 8 + |head| + |body| < TWO_31
    case Noise(word) => |word| == 4 && word != MARKER
  }

  function Total(g: Segment): nat
    requires g.Frame?
  {
    8 + |g.head| + |g.body|
  }

  /** The part of a frame after marker and total length. */
  function Payload(g: Segment): (r: seq<byte>)
    requires g.Frame?
    ensures |r| == Total(g) - 4
  {
    LittleEndian32(|g.head| % TWO_32) + g.head + g.body
  }

  function Prefix(g: Segment): (r: seq<byte>)
    requires g.Frame?
    ensures |r| == 8
  {
    MARKER + LittleEndian32(Total(g) % TWO_32)
  }

  function SegmentBytes(g: Segment): (r: seq<byte>)
    ensures WellFormed(g) ==> 4 <= |r|
  {
    match g
    case Frame(_, _) => Prefix(g) + Payload(g)
    case Noise(word) => word
  }

  function Delivered(utf8: Utf8, g: Segment): seq<Message>
  {
    match g
    case Frame(head, body) =>
      if |head| <= TEMP_BUFFER_SIZE && |body| <= TEMP_BUFFER_SIZE then Deliver(utf8, head, body) else []
    case Noise(_) => []
  }

  /** A frame that the receiver does not drop. */
  predicate Kept(g: Segment) { g.Frame? && |g.head| <= 1024 && |g.body| <= 1024 }

  predicate AllWellFormed(gs: seq<Segment>) { forall i :: 0 <= i < |gs| ==> WellFormed(gs[i]) }

  function Stream(gs: seq<Segment>): (r: seq<byte>)
  {
    if gs == [] then [] else SegmentBytes(gs[0]) + Stream(gs[1..])
  }

  function Flat<S, T>(f: S -> seq<T>, gs: seq<S>): seq<T>
  {
    if gs == [] then [] else Flat(f, gs[..|gs| - 1]) + f(gs[|gs| - 1])
  }

  lemma {:induction false} FlatOfSingletons<S, T>(f: S -> seq<T>, gs: seq<S>, out: seq<T>)
    requires |gs| == |out| && forall i :: 0 <= i < |gs| ==> f(gs[i]) == [out[i]]
    ensures Flat(f, gs) == out
  {
    if gs != [] {
      FlatOfSingletons(f, gs[..|gs| - 1], out[..|gs| - 1]);
    }
  }

  lemma FlatOneMore<S, T>(f: S -> seq<T>, gs: seq<S>, k: nat)
    requires k < |gs|
    ensures Flat(f, gs[..k + 1]) == Flat(f, gs[..k]) + f(gs[k])
  {
    assert gs[..k + 1][..k] == gs[..k];
  }

  function DeliveredAll(utf8: Utf8, gs: seq<Segment>): seq<Message> { Flat((g: Segment) => Delivered(utf8, g), gs) }

  // ---------------------------------------------------------------- one call against the stream

  lemma PrefixReadsBack(g: Segment, s: seq<byte>)
    requires g.Frame? && Total(g) < TWO_32
    ensures (Prefix(g) + s)[..4] == MARKER
    ensures ReadLittleEndian32((Prefix(g) + s)[4..]).value == Total(g)
    ensures (Prefix(g) + s)[8..] == s
  {
    var e := LittleEndian32(Total(g));
    assert Prefix(g) + s == MARKER + (e + s);
    assert (MARKER + (e + s))[4..] == e + s;
    LittleEndian32RoundTrip(Total(g), s);
  }

  lemma TakenWhole(size: nat, block: nat, need: nat)
    requires 1 <= block <= size && need <= block
    ensures Taken(size, block, need) == block
  {
  }

  lemma PayloadHead(g: Segment, s: seq<byte>)
    requires g.Frame? && Total(g) < TWO_31
    ensures ReadLittleEndian32(Payload(g) + s).value == |g.head|
  {
    var rest := g.head + g.body + s;
    assert Payload(g) + s == LittleEndian32(|g.head|) + rest;
    LittleEndian32RoundTrip(|g.head|, rest);
  }

  lemma PayloadCut(g: Segment, s: seq<byte>)
    requires g.Frame? && Total(g) < TWO_31
    ensures CutPayload(Total(g), Payload(g) + s) ==
            if |g.head| <= TEMP_BUFFER_SIZE && |g.body| <= TEMP_BUFFER_SIZE then Whole(|g.head|)
            else Dropped(|Payload(g)|)
  {
    var p, total, n := Payload(g) + s, Total(g), |g.head|;
    PayloadHead(g, s);
    TakenWhole(|p|, total - 4, 4);
    if n <= TEMP_BUFFER_SIZE {
      BodyLenExact(total, n);
      TakenWhole(|p|, total - 4, 4 + n);
    }
  }

  /** A complete payload is consumed whole: delivered, or dropped when a part is over the limit. */
  lemma PayloadConsumed(utf8: Utf8, g: Segment, s: seq<byte>)
    requires g.Frame? && Total(g) < TWO_31
    ensures ReadPayload(utf8, Total(g), Payload(g) + s).rx == Rx(s, 0)
    ensures ReadPayload(utf8, Total(g), Payload(g) + s).out == Delivered(utf8, g)
    ensures ReadPayload(utf8, Total(g), Payload(g) + s).result == Kept(g)
  {
    PayloadCut(g, s);
    var p, total, n := Payload(g) + s, Total(g), |g.head|;
    assert p[total - 4..] == s;
    assert p[4..4 + n] == g.head;
    assert p[4 + n..total - 4] == g.body;
  }

  /**
    The receiver has dealt with the first k segments: its buffer and what is still to come
    are the rest of the stream, less the eight bytes already taken when a length is remembered.
   */
  ghost predicate Tracks(gs: seq<Segment>, k: nat, rx: Rx, pending: seq<byte>)
  {
    && AllWellFormed(gs)
    && k <= |gs|
    && (rx.pre == 0 ==> rx.buf + pending == Stream(gs[k..]))
    && (rx.pre != 0 ==>
          && k < |gs| && gs[k].Frame? && rx.pre == Total(gs[k])
          && rx.buf + pending == Payload(gs[k]) + Stream(gs[k + 1..]))
  }

  lemma StreamAt(gs: seq<Segment>, k: nat)
    requires AllWellFormed(gs) && k < |gs|
    ensures Stream(gs[k..]) == SegmentBytes(gs[k]) + Stream(gs[k + 1..])
  {
    assert gs[k..][1..] == gs[k + 1..];
  }

  lemma SplitFront(a: seq<byte>, b: seq<byte>, x: seq<byte>, y: seq<byte>)
    requires a + b == x + y && |x| <= |a|
    ensures a == x + a[|x|..] && a[|x|..] + b == y
  {
    assert a == (a + b)[..|a|];
    assert x == (x + y)[..|x|];
    assert a[..|x|] == x;
    assert y == (x + y)[|x|..];
  }

  /** With the header remembered, a call either waits for the payload or consumes it. */
  lemma PollRemembered(utf8: Utf8, gs: seq<Segment>, k: nat, rx: Rx, pending: seq<byte>) returns (k': nat)
    requires Tracks(gs, k, rx, pending) && rx.pre != 0
    ensures k <= k' <= k + 1 && Tracks(gs, k', Poll(utf8, rx).rx, pending)
    ensures k' == k ==> Poll(utf8, rx).out == [] && |rx.buf| < |Payload(gs[k])|
    ensures k' == k + 1 ==> Poll(utf8, rx).out == Delivered(utf8, gs[k])
    ensures Poll(utf8, rx).result <==> k' == k + 1 && Kept(gs[k])
  {
    var g := gs[k];
    if |rx.buf| < |Payload(g)| {
      return k;
    }
    SplitFront(rx.buf, pending, Payload(g), Stream(gs[k + 1..]));
    PayloadConsumed(utf8, g, rx.buf[|Payload(g)|..]);
    k' := k + 1;
  }

  lemma PollNoise(utf8: Utf8, word: seq<byte>, s: seq<byte>)
    requires |word| == 4 && word != MARKER && 4 <= |s|
    ensures Poll(utf8, Rx(word + s, 0)) == Polled(Rx(s, 0), [], false)
  {
    assert (word + s)[..4] == word && (word + s)[4..] == s;
  }

  lemma PollFrame(utf8: Utf8, g: Segment, s: seq<byte>)
    requires g.Frame? && Total(g) < TWO_31
    ensures Poll(utf8, Rx(Prefix(g) + s, 0)) ==
            if |s| < |Payload(g)| then Polled(Rx(s, Total(g)), [], false)
            else ReadPayload(utf8, Total(g), s)
  {
    PrefixReadsBack(g, s);
  }

  lemma PollWholeFrame(utf8: Utf8, g: Segment, s: seq<byte>, pending: seq<byte>, rest: seq<byte>)
    requires g.Frame? && WellFormed(g) && s + pending == Payload(g) + rest && |Payload(g)| <= |s|
    ensures var p := Poll(utf8, Rx(Prefix(g) + s, 0));
            && p.rx.pre == 0 && p.rx.buf + pending == rest
            && p.out == Delivered(utf8, g) && p.result == Kept(g)
  {
    PollFrame(utf8, g, s);
    SplitFront(s, pending, Payload(g), rest);
    PayloadConsumed(utf8, g, s[|Payload(g)|..]);
  }

  /** At a segment boundary, a call waits, takes a header, drops a word or consumes a frame. */
  lemma PollAtBoundary(utf8: Utf8, gs: seq<Segment>, k: nat, rx: Rx, pending: seq<byte>) returns (k': nat)
    requires Tracks(gs, k, rx, pending) && rx.pre == 0
    ensures k <= k' <= k + 1 && k' <= |gs| && Tracks(gs, k', Poll(utf8, rx).rx, pending)
    ensures k' == k ==> Poll(utf8, rx).out == []
    ensures k' == k && k < |gs| ==> |rx.buf| < 8 || |rx.buf| < |SegmentBytes(gs[k])|
    ensures k' == k + 1 ==> Poll(utf8, rx).out == Delivered(utf8, gs[k])
    ensures Poll(utf8, rx).result <==> k' == k + 1 && Kept(gs[k])
  {
    if |rx.buf| < 8 {
      return k;
    }
    assert |Stream(gs[k..])| >= 8;
    assert gs[k..] != [];
    StreamAt(gs, k);
    if gs[k].Noise? {
      SplitFront(rx.buf, pending, gs[k].word, Stream(gs[k + 1..]));
      PollNoise(utf8, gs[k].word, rx.buf[4..]);
      return k + 1;
    }
    k' := PollAtFrame(utf8, gs, k, rx, pending);
  }

  lemma FrameArrives(g: Segment, buf: seq<byte>, pending: seq<byte>, rest: seq<byte>)
    requires g.Frame? && 8 <= |buf| && buf + pending == SegmentBytes(g) + rest
    ensures buf == Prefix(g) + buf[8..] && buf[8..] + pending == Payload(g) + rest
  {
    assert SegmentBytes(g) + rest == Prefix(g) + (Payload(g) + rest);
    SplitFront(buf, pending, Prefix(g), Payload(g) + rest);
  }

  lemma PollAtFrame(utf8: Utf8, gs: seq<Segment>, k: nat, rx: Rx, pending: seq<byte>) returns (k': nat)
    requires AllWellFormed(gs) && k < |gs| && gs[k].Frame?
    requires rx.pre == 0 && 8 <= |rx.buf|
    requires rx.buf + pending == SegmentBytes(gs[k]) + Stream(gs[k + 1..])
    ensures k <= k' <= k + 1 && Tracks(gs, k', Poll(utf8, rx).rx, pending)
    ensures k' == k ==> Poll(utf8, rx).out == [] && |rx.buf| < |SegmentBytes(gs[k])|
    ensures k' == k + 1 ==> Poll(utf8, rx).out == Delivered(utf8, gs[k])
    ensures Poll(utf8, rx).result <==> k' == k + 1 && Kept(gs[k])
  {
    FrameArrives(gs[k], rx.buf, pending, Stream(gs[k + 1..]));
    var s := rx.buf[8..];
    assert rx == Rx(Prefix(gs[k]) + s, 0);
    if |s| < |Payload(gs[k])| {
      PollFrame(utf8, gs[k], s);
      return k;
    }
    PollWholeFrame(utf8, gs[k], s, pending, Stream(gs[k + 1..]));
    k' := k + 1;
  }

  lemma PollStep(utf8: Utf8, gs: seq<Segment>, k: nat, rx: Rx, pending: seq<byte>) returns (k': nat)
    requires Tracks(gs, k, rx, pending)
    ensures k <= k' <= k + 1 && k' <= |gs| && Tracks(gs, k', Poll(utf8, rx).rx, pending)
    ensures Poll(utf8, rx).out == if k' == k then [] else Delivered(utf8, gs[k])
    ensures Poll(utf8, rx).result <==> k' == k + 1 && Kept(gs[k])
    ensures pending == [] && k < |gs| && gs[|gs| - 1].Frame? ==> k' == k + 1
  {
    if rx.pre == 0 {
      k' := PollAtBoundary(utf8, gs, k, rx, pending);
    } else {
      k' := PollRemembered(utf8, gs, k, rx, pending);
    }
    if pending == [] && k < |gs| && gs[|gs| - 1].Frame? {
      assert rx.buf + pending == rx.buf;
      StreamAt(gs, k);
      if k + 1 < |gs| {
        StreamAt(gs, k + 1);
      }
    }
  }

  // ---------------------------------------------------------------- whole runs

  datatype Event = Arrive(chunk: seq<byte>) | Call

  datatype Outcome = Outcome(rx: Rx, out: seq<Message>)

  /** Any interleaving of Receive and ProcessRecv. */
  function Run(utf8: Utf8, start: Rx, events: seq<Event>): Outcome
  {
    if events == [] then Outcome(start, [])
    else
      var o := Run(utf8, start, events[..|events| - 1]);
      match events[|events| - 1]
      case Arrive(chunk) => Outcome(Rx(o.rx.buf + chunk, o.rx.pre), o.out)
      case Call => Called(utf8, o)
  }

  function Arrived(events: seq<Event>): seq<byte>
  {
    if events == [] then []
    else
      var e := events[|events| - 1];
      Arrived(events[..|events| - 1]) + if e.Arrive? then e.chunk else []
  }

  const IDLE := Rx([], 0)

  /** The first k segments have been dealt with and have delivered `o.out`. */
  ghost predicate Reached(utf8: Utf8, gs: seq<Segment>, k: nat, o: Outcome, pending: seq<byte>)
  {
    Tracks(gs, k, o.rx, pending) && o.out == DeliveredAll(utf8, gs[..k])
  }

  function Called(utf8: Utf8, o: Outcome): Outcome
  {
    var p := Poll(utf8, o.rx); Outcome(p.rx, o.out + p.out)
  }

  lemma ReachedCall(utf8: Utf8, gs: seq<Segment>, j: nat, o: Outcome, pending: seq<byte>) returns (k: nat)
    requires Reached(utf8, gs, j, o, pending)
    ensures Reached(utf8, gs, k, Called(utf8, o), pending)
    ensures j <= k && (pending == [] && j < |gs| && gs[|gs| - 1].Frame? ==> k == j + 1)
  {
    k := PollStep(utf8, gs, j, o.rx, pending);
    if k == j + 1 {
      FlatOneMore((g: Segment) => Delivered(utf8, g), gs, j);
    }
  }

  lemma ReachedArrival(utf8: Utf8, gs: seq<Segment>, k: nat, o: Outcome, chunk: seq<byte>, pending: seq<byte>)
    requires Reached(utf8, gs, k, o, chunk + pending)
    ensures Reached(utf8, gs, k, Outcome(Rx(o.rx.buf + chunk, o.rx.pre), o.out), pending)
  {
    assert o.rx.buf + chunk + pending == o.rx.buf + (chunk + pending);
  }

  /** However the stream was cut and however calls interleave, a run tracks the stream. */
  lemma {:induction false} RunTracks(utf8: Utf8, gs: seq<Segment>, events: seq<Event>, pending: seq<byte>)
    returns (k: nat)
    requires AllWellFormed(gs) && Arrived(events) + pending == Stream(gs)
    ensures Reached(utf8, gs, k, Run(utf8, IDLE, events), pending)
  {
    if events == [] {
      assert gs[0..] == gs;
      return 0;
    }
    var n := |events| - 1;
    match events[n] {
      case Arrive(chunk) =>
        assert Arrived(events[..n]) + (chunk + pending) == Arrived(events) + pending;
        k := RunTracks(utf8, gs, events[..n], chunk + pending);
        ReachedArrival(utf8, gs, k, Run(utf8, IDLE, events[..n]), chunk, pending);
      case Call =>
        assert Arrived(events) == Arrived(events[..n]);
        var j := RunTracks(utf8, gs, events[..n], pending);
        k := ReachedCall(utf8, gs, j, Run(utf8, IDLE, events[..n]), pending);
    }
  }

  /** Safety: the messages delivered so far are those of a prefix of the segments, in order. */
  lemma DeliversPrefix(utf8: Utf8, gs: seq<Segment>, events: seq<Event>)
    requires AllWellFormed(gs) && Arrived(events) <= Stream(gs)
    ensures exists k :: 0 <= k <= |gs| && Run(utf8, IDLE, events).out == DeliveredAll(utf8, gs[..k])
  {
    var pending := Stream(gs)[|Arrived(events)|..];
    var k := RunTracks(utf8, gs, events, pending);
  }

  function Calls(n: nat): seq<Event> { seq(n, _ => Call) }

  lemma OneMoreCall(utf8: Utf8, events: seq<Event>, n: nat)
    ensures Run(utf8, IDLE, events + Calls(n + 1)) == Called(utf8, Run(utf8, IDLE, events + Calls(n)))
  {
    var es := events + Calls(n + 1);
    assert es[..|es| - 1] == events + Calls(n) && es[|es| - 1] == Call;
  }

  lemma {:induction false} CallsFinish(utf8: Utf8, gs: seq<Segment>, events: seq<Event>, n: nat) returns (k: nat)
    requires AllWellFormed(gs) && Arrived(events) == Stream(gs)
    requires gs == [] || gs[|gs| - 1].Frame?
    ensures Reached(utf8, gs, k, Run(utf8, IDLE, events + Calls(n)), [])
    ensures n <= k || k == |gs|
  {
    if n == 0 {
      assert events + Calls(0) == events && Arrived(events) + [] == Stream(gs);
      k := RunTracks(utf8, gs, events, []);
    } else {
      OneMoreCall(utf8, events, n - 1);
      var j := CallsFinish(utf8, gs, events, n - 1);
      k := ReachedCall(utf8, gs, j, Run(utf8, IDLE, events + Calls(n - 1)), []);
    }
  }

  /**
    Completeness: once the whole stream has arrived, as many further calls as it has segments
    deliver everything and leave the receiver idle, when the stream ends with a frame.
   */
  lemma DeliversAll(utf8: Utf8, gs: seq<Segment>, events: seq<Event>, n: nat)
    requires AllWellFormed(gs) && Arrived(events) == Stream(gs)
    requires gs == [] || gs[|gs| - 1].Frame?
    requires |gs| <= n
    ensures Run(utf8, IDLE, events + Calls(n)) == Outcome(IDLE, DeliveredAll(utf8, gs))
  {
    var k := CallsFinish(utf8, gs, events, n);
    assert k == |gs| && gs[..k] == gs && gs[k..] == [] && Stream(gs[k..]) == [];
    var rx := Run(utf8, IDLE, events + Calls(n)).rx;
    assert rx.buf + [] == rx.buf;
  }

  /**
    With the header taken earlier and the payload all there, a call makes progress exactly when
    the payload is at least eight bytes long; a shorter one stays until other bytes arrive.
   */
  lemma ShortPayloadStalls(utf8: Utf8, g: Segment)
    requires g.Frame? && Total(g) < TWO_31
    ensures Poll(utf8, Rx(Payload(g), Total(g))).rx != Rx(Payload(g), Total(g)) <==> 4 <= |g.head| + |g.body|
  {
    if 4 <= |g.head| + |g.body| {
      assert Payload(g) + [] == Payload(g);
      PayloadConsumed(utf8, g, []);
    }
  }

  /** A frame that is all there when its header is read is taken at once, however short. */
  lemma WholeFrameIsTaken(utf8: Utf8, g: Segment)
    requires g.Frame? && Total(g) < TWO_31
    ensures Poll(utf8, Rx(Prefix(g) + Payload(g), 0)).rx == IDLE
    ensures Poll(utf8, Rx(Prefix(g) + Payload(g), 0)).out == Delivered(utf8, g)
  {
    PollFrame(utf8, g, Payload(g));
    assert Payload(g) + [] == Payload(g);
    PayloadConsumed(utf8, g, []);
  }

  // ---------------------------------------------------------------- Send

  function TypeName(m: Message): seq<byte> { if m.SigninMessage? then SIGNIN_NAME else MOVE_NAME }

  function Serialize(m: Message): seq<byte>
  {
    match m
    case SigninMessage(signin) => SerializeSignin(signin)
    case MoveMessage(move) => SerializeMove(move)
  }

  /** The message as it can be told apart on the wire: negative zero is zero. */
  function Normal(m: Message): Message
  {
    match m
    case SigninMessage(_) => m
    case MoveMessage(move) => MoveMessage(Move(Unsigned(move.forward), Unsigned(move.angle)))
  }

  predicate Sendable(utf8: Utf8, m: Message)
  {
    && |Serialize(m)| <= TEMP_BUFFER_SIZE
    && (m.SigninMessage? ==> ValidSignin(utf8, m.signin))
  }

  function HeadOf(m: Message): CmdType
  {
    CmdType(TypeName(m), ToI32(|Serialize(m)| % TWO_32), [], [])
  }

  /** The frame that Send appends to the outgoing stream. */
  function Sent(m: Message): Segment
  {
    Frame(SerializeCmdType(HeadOf(m)), Serialize(m))
  }

  function SentAll(ms: seq<Message>): seq<Segment> { seq(|ms|, i requires 0 <= i < |ms| => Sent(ms[i])) }

  function NormalAll(ms: seq<Message>): seq<Message> { seq(|ms|, i requires 0 <= i < |ms| => Normal(ms[i])) }

  predicate Spells(name: seq<byte>, text: string)
  {
    |name| == |text| && forall i :: 0 <= i < |text| ==> name[i] == text[i] as int
  }

  /** The marker and the names that GetTypeName gives. */
  lemma Names()
    ensures Spells(SIGNIN_NAME, "BaseCmd.reqSignin") && Spells(MOVE_NAME, "BaseCmd.reqMove")
    ensures Spells(MARKER[..3], "pbh") && MARKER[3..] == [0]
  {
  }

  lemma SmallHead(c: CmdType)
    requires 2 <= |c.name| < 128 && 0 <= c.size <= TEMP_BUFFER_SIZE && c.fromip == [] && c.toip == []
    ensures 4 <= |SerializeCmdType(c)| <= 2 + |c.name| + 3
  {
    if 128 <= c.size {
      assert EncodeVarint(c.size) == [c.size % 128 + 128] + [c.size / 128];
    }
  }

  lemma HeadComesBack(utf8: Utf8, m: Message)
    requires Sendable(utf8, m) && utf8(TypeName(m))
    ensures var head := SerializeCmdType(HeadOf(m));
            4 <= |head| <= 30 && ParseCmdType(utf8, head).msg.name == TypeName(m)
  {
    HeadIsSmall(m);
    SmallHead(HeadOf(m));
    CmdTypeRoundTrip(utf8, HeadOf(m));
  }

  lemma HeadIsSmall(m: Message)
    requires |Serialize(m)| <= TEMP_BUFFER_SIZE
    ensures var c := HeadOf(m);
            15 <= |c.name| <= 17 && 0 <= c.size <= TEMP_BUFFER_SIZE && c.fromip == [] && c.toip == []
  {
    SmallSize(|Serialize(m)|);
    NameLength(m);
  }

  lemma NameLength(m: Message)
    ensures |TypeName(m)| == if m.SigninMessage? then 17 else 15
  {
  }

  lemma SmallSize(n: nat)
    requires n < TWO_31
    ensures ToI32(n % TWO_32) == n
  {
  }

  lemma BodyComesBack(utf8: Utf8, m: Message, head: seq<byte>)
    requires Sendable(utf8, m) && ParseCmdType(utf8, head).msg.name == TypeName(m)
    ensures Deliver(utf8, head, Serialize(m)) == [Normal(m)]
  {
    match m {
      case SigninMessage(signin) => SigninRoundTrip(utf8, signin);
      case MoveMessage(move) =>
        assert |SIGNIN_NAME| == 17 && |MOVE_NAME| == 15;
        MoveRoundTrip(move);
    }
  }

  /** The head tells the type and the size of the body, and nothing else. */
  predicate HeadTells(utf8: Utf8, head: seq<byte>, m: Message)
  {
    |Serialize(m)| < TWO_31 && ParseCmdType(utf8, head) == Parsed(true, CmdType(TypeName(m), |Serialize(m)|, [], []))
  }

  lemma SentHead(utf8: Utf8, m: Message)
    requires |Serialize(m)| < TWO_31 && utf8(TypeName(m))
    ensures HeadTells(utf8, Sent(m).head, m) && Sent(m).body == Serialize(m)
  {
    HeadExact(m);
    TellsItself(utf8, HeadOf(m));
  }

  lemma HeadExact(m: Message)
    requires |Serialize(m)| < TWO_31
    ensures HeadOf(m) == CmdType(TypeName(m), |Serialize(m)|, [], []) && |TypeName(m)| <= 17
  {
    SmallSize(|Serialize(m)|);
    NameLength(m);
  }

  lemma TellsItself(utf8: Utf8, c: CmdType)
    requires utf8(c.name) && |c.name| <= 17 && c.fromip == [] && c.toip == []
    ensures ParseCmdType(utf8, SerializeCmdType(c)) == Parsed(true, c)
  {
    CmdTypeRoundTrip(utf8, c);
  }

  lemma Slices(s: seq<byte>, a: seq<byte>, b: seq<byte>, c: seq<byte>, d: seq<byte>, e: seq<byte>)
    requires |a| == |b| == |c| == 4 && s == (a + b) + (c + d + e)
    ensures s[..4] == a && s[4..8] == b && s[8..12] == c && s[12..12 + |d|] == d && s[12 + |d|..] == e
  {
  }

  /** The bytes of a frame, counted out. */
  lemma FrameLayout(g: Segment)
    requires g.Frame? && Total(g) < TWO_32
    ensures var b := SegmentBytes(g);
            && |b| == 12 + |g.head| + |g.body| && b[..4] == [112, 98, 104, 0]
            && Word(b[4..8]) == |b| - 4 && Word(b[8..12]) == |g.head|
            && b[12..12 + |g.head|] == g.head && b[12 + |g.head|..] == g.body
  {
    var b := SegmentBytes(g);
    FrameParts(g);
    Slices(b, MARKER, LittleEndian32(Total(g)), LittleEndian32(|g.head|), g.head, g.body);
    WordOf(b[4..8], Total(g));
    WordOf(b[8..12], |g.head|);
  }

  lemma FrameParts(g: Segment)
    requires g.Frame? && Total(g) < TWO_32
    ensures SegmentBytes(g) == (MARKER + LittleEndian32(Total(g))) + (LittleEndian32(|g.head|) + g.head + g.body)
  {
    assert Total(g) % TWO_32 == Total(g) && |g.head| % TWO_32 == |g.head|;
  }

  lemma WordOf(e: seq<byte>, v: u32)
    requires e == LittleEndian32(v)
    ensures Word(e) == v
  {
    LittleEndian32RoundTrip(v, []);
    assert e + [] == e;
  }

  /** The bytes of the frame of a message: marker, total, head length, the head that tells of it, the message. */
  ghost predicate FrameOf(b: seq<byte>, m: Message)
  {
    && 12 <= |b| && b[..4] == [112, 98, 104, 0] && Word(b[4..8]) == |b| - 4
    && 12 + Word(b[8..12]) <= |b| && b[12 + Word(b[8..12])..] == Serialize(m)
    && forall utf8: Utf8 :: utf8(TypeName(m)) ==> HeadTells(utf8, b[12..12 + Word(b[8..12])], m)
  }

  lemma SentFrame(m: Message)
    requires |Serialize(m)| < TWO_31
    ensures FrameOf(SegmentBytes(Sent(m)), m)
  {
    HeadLength(m);
    FrameReads(Sent(m), m);
    forall utf8: Utf8 | utf8(TypeName(m)) ensures HeadTells(utf8, Sent(m).head, m) { SentHead(utf8, m); }
  }

  lemma FrameReads(g: Segment, m: Message)
    requires g.Frame? && Total(g) < TWO_32 && g.body == Serialize(m)
    ensures (forall utf8: Utf8 :: utf8(TypeName(m)) ==> HeadTells(utf8, g.head, m)) ==> FrameOf(SegmentBytes(g), m)
  {
    FrameLayout(g);
  }

  lemma HeadLength(m: Message)
    requires |Serialize(m)| < TWO_31
    ensures |Sent(m).head| <= 40
  {
    var c := HeadOf(m);
    NameLength(m);
    TenBytesSuffice();
    VarintSizeExact(c.size);
    Pow2Of64();
    Log2Below(Max(c.size, 1), 64, TWO_64);
    assert |EncodeVarint(c.size)| <= 10;
  }

  /** A sent frame is well formed, and delivering it hands over the message that was sent. */
  lemma SentIsDelivered(utf8: Utf8, m: Message)
    requires Sendable(utf8, m) && utf8(SIGNIN_NAME) && utf8(MOVE_NAME)
    ensures WellFormed(Sent(m)) && Delivered(utf8, Sent(m)) == [Normal(m)]
    ensures HeadTells(utf8, Sent(m).head, m) && Sent(m).body == Serialize(m)
  {
    SentHead(utf8, m);
    HeadComesBack(utf8, m);
    BodyComesBack(utf8, m, SerializeCmdType(HeadOf(m)));
  }

  /** Stream reassembly concerns messages that can be sent, under any notion of valid text. */
  predicate AllSendable(utf8: Utf8, ms: seq<Message>)
  {
    && utf8(SIGNIN_NAME) && utf8(MOVE_NAME)
    && forall i :: 0 <= i < |ms| ==> Sendable(utf8, ms[i])
  }

  lemma SentAreDelivered(utf8: Utf8, ms: seq<Message>, k: nat)
    requires AllSendable(utf8, ms) && k <= |ms|
    ensures AllWellFormed(SentAll(ms))
    ensures DeliveredAll(utf8, SentAll(ms)[..k]) == NormalAll(ms)[..k]
  {
    var gs := SentAll(ms);
    forall i | 0 <= i < |gs| ensures WellFormed(gs[i]) && Delivered(utf8, gs[i]) == [NormalAll(ms)[i]] {
      SentIsDelivered(utf8, ms[i]);
    }
    FlatOfSingletons((g: Segment) => Delivered(utf8, g), gs[..k], NormalAll(ms)[..k]);
  }

  /**
    For all messages sent, every cutting of any prefix of their bytes into arrivals and every
    interleaving with calls, the messages handed to processors are a prefix of those sent.
   */
  lemma ReassemblyIsPrefix(utf8: Utf8, ms: seq<Message>, events: seq<Event>)
    requires AllSendable(utf8, ms)
    requires Arrived(events) <= Stream(SentAll(ms))
    ensures Run(utf8, IDLE, events).out <= NormalAll(ms)
  {
    SentAreDelivered(utf8, ms, 0);
    DeliversPrefix(utf8, SentAll(ms), events);
    var k :| 0 <= k <= |ms| && Run(utf8, IDLE, events).out == DeliveredAll(utf8, SentAll(ms)[..k]);
    SentAreDelivered(utf8, ms, k);
  }

  /** When all the bytes have arrived, one call per message delivers all of them and empties the receiver. */
  lemma ReassemblyIsComplete(utf8: Utf8, ms: seq<Message>, events: seq<Event>, n: nat)
    requires AllSendable(utf8, ms)
    requires Arrived(events) == Stream(SentAll(ms))
    requires |ms| <= n
    ensures Run(utf8, IDLE, events + Calls(n)) == Outcome(IDLE, NormalAll(ms))
  {
    SentAreDelivered(utf8, ms, |ms|);
    DeliversAll(utf8, SentAll(ms), events, n);
    assert SentAll(ms)[..|ms|] == SentAll(ms);
  }
}
