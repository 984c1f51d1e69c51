/**
  MessageRoute: the receiving and sending ends over two stream buffers. ProcessRecv is the
  sequence of block reads the source makes; its contract is one step of the framing machine.
 */
module Route {
  import opened Bytes
  import opened Wire
  import opened Messages
  import opened Framing
  import StreamBuf

  lemma {:induction false} TakenStable(size: nat, block: nat, m: nat, need: nat)
    requires 1 <= block && m <= need
    requires need <= Taken(size, block, m) || Taken(size, block, m) == size
    ensures Taken(size, block, need) == Taken(size, block, m)
  {
    if block < size && block < m {
      TakenStable(size - block, block, m - block, need - block);
    }
  }

  lemma {:induction false} TakenNext(size: nat, block: nat, m: nat)
    requires 1 <= block && Taken(size, block, m) < size
    ensures Taken(size, block, Taken(size, block, m) + 1) == Min(size, Taken(size, block, m) + block)
    ensures m <= Taken(size, block, m)
  {
    if block < m {
      TakenNext(size - block, block, m - block);
    }
  }

  /** `got` has been taken from the stream `all` in blocks, to read m bytes; `rest` is left. */
  ghost predicate ReadSoFar(all: seq<byte>, block: nat, m: nat, got: seq<byte>, rest: seq<byte>)
  {
    1 <= block && |got| == Taken(|all|, block, m) && all == got + rest
  }

  lemma {:induction false} TakenEnough(size: nat, block: nat, need: nat)
    requires 1 <= block
    ensures Min(size, need) <= Taken(size, block, need)
  {
    if block < size && block < need {
      TakenEnough(size - block, block, need - block);
    }
  }

  /** What has been read is a prefix of the stream, and long enough unless the stream is shorter. */
  lemma ReadIsPrefix(all: seq<byte>, block: nat, m: nat, got: seq<byte>, rest: seq<byte>)
    requires ReadSoFar(all, block, m, got, rest)
    ensures got == all[..|got|] && rest == all[|got|..]
    ensures Min(|all|, m) <= |got|
    ensures 4 <= |got| ==> ReadLittleEndian32(got).value == ReadLittleEndian32(all).value
  {
    TakenEnough(|all|, block, m);
  }

  lemma ReadOneMore(all: seq<byte>, block: nat, m: nat, got: seq<byte>, rest: seq<byte>, chunk: seq<byte>)
    requires ReadSoFar(all, block, m, got, rest)
    requires chunk == rest[..Min(block, |rest|)] && chunk != []
    ensures ReadSoFar(all, block, |got| + 1, got + chunk, rest[|chunk|..])
  {
    TakenNext(|all|, block, m);
  }

  /** Extends the bytes read so far until `need` of them are there, block by block. */
  method FillTo(input: StreamBuf.StreamBuf, block: nat, got: seq<byte>, ghost m: nat, need: nat, ghost all: seq<byte>)
    returns (more: seq<byte>)
    requires m <= need && input.Valid()
    requires ReadSoFar(all, block, m, got, input.Contents())
    modifies input
    ensures input.Valid() && input.buffer == old(input.buffer)
    ensures ReadSoFar(all, block, need, more, input.Contents())
  {
    more := got;
    ghost var k: nat := m;
    while |more| < need
      invariant k <= need && input.Valid() && input.buffer == old(input.buffer)
      invariant ReadSoFar(all, block, k, more, input.Contents())
      decreases |all| - |more|
    {
      ghost var rest := input.Contents();
      var chunk := input.Read(block);
      if chunk == [] {
        break;
      }
      ReadOneMore(all, block, k, more, rest, chunk);
      k := |more| + 1;
      more := more + chunk;
    }
    TakenStable(|all|, block, k, need);
  }

  lemma FrameBytes(head: seq<byte>, body: seq<byte>)
    ensures SegmentBytes(Frame(head, body)) ==
            MARKER + LittleEndian32((8 + |head| + |body|) % TWO_32) + LittleEndian32(|head| % TWO_32) + head + body
  {
    var a, b := LittleEndian32((8 + |head| + |body|) % TWO_32), LittleEndian32(|head| % TWO_32);
    assert (MARKER + a) + (b + head + body) == MARKER + a + b + head + body;
  }

  lemma Moved(into: seq<byte>, from: seq<byte>, n: nat, data: seq<byte>)
    requires n <= |from| && data == from[..n]
    ensures data[..|data|] == data && (into + data) + from[n..] == into + from
  {
    assert from == data + from[n..];
  }

  class MessageRoute {
    const recv: StreamBuf.StreamBuf    // mDataStreamReceive
    const send: StreamBuf.StreamBuf    // mDataStreamSend
    var preTotalLen: i32               // mPreRecivesTotalLen
    var totalSend: nat
    var dispatched: seq<Message>       // what processors have been handed

    ghost predicate Valid()
      reads this, recv, send
    {
      && recv.Valid() && send.Valid() && recv != send && recv.buffer != send.buffer
    }

    ghost function State(): Rx
      requires Valid()
      reads this, recv, send, recv.buffer
    {
      Rx(recv.Contents(), preTotalLen)
    }

    constructor (maximumSize: nat)
      ensures Valid() && fresh(recv) && fresh(send) && fresh(recv.buffer) && fresh(send.buffer)
      ensures State() == IDLE && dispatched == [] && send.Contents() == []
    {
      recv := new StreamBuf.StreamBuf(maximumSize);
      send := new StreamBuf.StreamBuf(maximumSize);
      preTotalLen, totalSend, dispatched := 0, 0, [];
    }

    /** Receive: moves the arrived bytes over in pieces of at most TEMP_BUFFER_SIZE. */
    method Receive(buf: StreamBuf.StreamBuf)
      requires Valid() && buf.Valid() && buf != recv && buf.buffer != recv.buffer
      requires |buf.Contents()| < TWO_31 && |recv.Contents()| + |buf.Contents()| <= recv.maxSize
      modifies buf, recv, recv.buffer
      ensures buf.Valid() && buf.Contents() == []
      ensures recv.Valid() && recv.Contents() == old(recv.Contents()) + old(buf.Contents())
      ensures recv.buffer == old(recv.buffer) || fresh(recv.buffer)
    {
      var size := buf.Size();
      ghost var both := recv.Contents() + buf.Contents();
      while size > 0
        invariant buf.Valid() && recv.Valid() && size == |buf.Contents()|
        invariant buf.buffer == old(buf.buffer) && buf.buffer != recv.buffer
        invariant recv.buffer == old(recv.buffer) || fresh(recv.buffer)
        invariant recv.Contents() + buf.Contents() == both
      {
        MovePiece(buf, Min(size, TEMP_BUFFER_SIZE));
        size := buf.Size();
      }
      assert recv.Contents() + [] == recv.Contents();
    }

    /** One turn of the copy loop. */
    method MovePiece(buf: StreamBuf.StreamBuf, n: nat)
      requires recv.Valid() && buf.Valid() && buf != recv && buf.buffer != recv.buffer
      requires n <= |buf.Contents()| && |recv.Contents()| + n <= recv.maxSize
      modifies buf, recv, recv.buffer
      ensures buf.Valid() && buf.buffer == old(buf.buffer) && |buf.Contents()| == old(|buf.Contents()|) - n
      ensures recv.Valid() && (recv.buffer == old(recv.buffer) || fresh(recv.buffer))
      ensures recv.Contents() + buf.Contents() == old(recv.Contents() + buf.Contents())
    {
      ghost var from, into := buf.Contents(), recv.Contents();
      var data := buf.Read(n);
      var ok := recv.Write(data);
      Moved(into, from, n, data);
    }

    /** ProcessRecv does exactly one step of the framing machine. */
    method ProcessRecv(utf8: Utf8) returns (result: bool)
      requires Valid()
      modifies this, recv
      ensures Valid() && send.Contents() == old(send.Contents())
      ensures var p := Poll(utf8, old(State()));
              State() == p.rx && dispatched == old(dispatched) + p.out && result == p.result
    {
      var total: u32 := 0;
      ghost var buf := recv.Contents();
      var size := recv.Size();
      if size < 8 {
        return false;
      } else if preTotalLen > 0 {
        total := preTotalLen;
        if total < 4 || size < total - 4 {
          return false;
        }
      } else {
        var readHead := recv.Read(4);
        if readHead != MARKER {
          preTotalLen := 0;
          return false;
        }
        var word := recv.Read(4);
        assert word == buf[4..8] && recv.Contents() == buf[8..];
        total := ReadLittleEndian32(word).value;
        assert total == ReadLittleEndian32(buf[4..]).value;
        size := recv.Size();
        if total < 4 || size < total - 4 {
          preTotalLen := ToI32(total);
          return false;
        }
      }
      result := ReadFrame(utf8, total);
    }

    method ReadFrame(utf8: Utf8, total: u32) returns (result: bool)
      requires Valid() && !TooFew(|recv.Contents()|, total)
      modifies this, recv
      ensures Valid() && send.Contents() == old(send.Contents())
      ensures var p := ReadPayload(utf8, total, old(recv.Contents()));
              State() == p.rx && dispatched == old(dispatched) + p.out && result == p.result
    {
      var whole, head, body := ReadParts(total);
      PayloadOutcome(utf8, total, old(recv.Contents()), whole, head, body, recv.Contents());
      preTotalLen := 0;
      if whole {
        dispatched := dispatched + Deliver(utf8, head, body);
      }
      return whole;
    }

    /** From the head length on, reading the payload through one blocked input stream. */
    method ReadParts(total: u32) returns (whole: bool, head: seq<byte>, body: seq<byte>)
      requires Valid() && !TooFew(|recv.Contents()|, total)
      modifies recv
      ensures Valid() && recv.buffer == old(recv.buffer)
      ensures var s := old(recv.Contents());
              match CutPayload(total, s)
              case Dropped(n) => !whole && recv.Contents() == s[n..]
              case Whole(n) => whole && recv.Contents() == s[total - 4..] &&
                               head == s[4..4 + n] && body == s[4 + n..total - 4]
    {
      ghost var s := recv.Contents();
      whole, head, body := false, [], [];
      var block := BlockSize(total);
      var got, headLen := ReadHeadLen(block);
      if headLen > TEMP_BUFFER_SIZE {
        return;
      }
      whole, head, body := ReadHeadAndBody(total, block, got, headLen, s);
    }

    method ReadHeadLen(block: nat) returns (got: seq<byte>, headLen: u32)
      requires Valid() && 1 <= block
      modifies recv
      ensures Valid() && recv.buffer == old(recv.buffer)
      ensures var s := old(recv.Contents());
              && ReadSoFar(s, block, 4, got, recv.Contents()) && recv.Contents() == s[|got|..]
              && headLen == if |s| < 4 then 0 else ReadLittleEndian32(s).value
    {
      ghost var s := recv.Contents();
      got := recv.Read(block);
      assert s == got + recv.Contents();
      got := FillTo(recv, block, got, 0, 4, s);
      ReadIsPrefix(s, block, 4, got, recv.Contents());
      headLen := if |got| < 4 then 0 else ReadLittleEndian32(got).value;
    }

    method ReadHeadAndBody(total: u32, block: nat, got: seq<byte>, headLen: u32, ghost s: seq<byte>)
      returns (whole: bool, head: seq<byte>, body: seq<byte>)
      requires Valid() && !TooFew(|s|, total) && headLen <= TEMP_BUFFER_SIZE && block == BlockSize(total)
      requires ReadSoFar(s, block, 4, got, recv.Contents())
      modifies recv
      ensures Valid() && recv.buffer == old(recv.buffer)
      ensures var bodyLen := ToI32((total - headLen - 8) % TWO_32);
              if bodyLen < 0 || TEMP_BUFFER_SIZE < bodyLen then
                !whole && recv.Contents() == s[Taken(|s|, block, 4 + headLen)..]
              else
                && whole && 8 + headLen <= total && recv.Contents() == s[total - 4..]
                && head == s[4..4 + headLen] && body == s[4 + headLen..total - 4]
    {
      whole, head, body := false, [], [];
      var more := FillTo(recv, block, got, 4, 4 + headLen, s);
      ReadIsPrefix(s, block, 4 + headLen, more, recv.Contents());
      var bodyLen := ToI32((total - headLen - 8) % TWO_32);
      BodyLenExact(total, headLen);
      if bodyLen < 0 || bodyLen > TEMP_BUFFER_SIZE {
        return;
      }
      more := FillTo(recv, block, more, 4 + headLen, total - 4, s);
      ReadIsPrefix(s, block, total - 4, more, recv.Contents());
      TakenWhole(|s|, block, total - 4);
      whole, head, body := true, more[4..4 + headLen], more[4 + headLen..];
    }

    /** Send: marker, total length, head length, head, body. */
    method Send(m: Message)
      requires Valid()
      requires |send.Contents()| + |SegmentBytes(Sent(m))| <= send.maxSize
      modifies this, send, send.buffer
      ensures Valid() && State() == old(State()) && dispatched == old(dispatched)
      ensures send.buffer == old(send.buffer) || fresh(send.buffer)
      ensures send.Contents() == old(send.Contents()) + SegmentBytes(Sent(m))
      ensures |Serialize(m)| < TWO_31 ==> FrameOf(send.Contents()[|old(send.Contents())|..], m)
      ensures totalSend == old(totalSend) + |SegmentBytes(Sent(m))|
    {
      var body := Serialize(m);
      var head := SerializeCmdType(HeadOf(m));
      var total := 8 + |head| + |body|;
      var bytes := MARKER + LittleEndian32(total % TWO_32) + LittleEndian32(|head| % TWO_32) + head + body;
      FrameBytes(head, body);
      var ok := send.Write(bytes);
      assert bytes[..|bytes|] == bytes;
      totalSend := totalSend + total + 4;
      if |body| < TWO_31 {
        SentFrame(m);
      }
    }
  }
}
