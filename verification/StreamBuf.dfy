/**
  asio::basic_streambuf: one character array addressed by four offsets. The bytes between the
  get offset and the put offset are the input sequence; the model shows that every operation
  acts on that input sequence as the matching operation on a plain byte queue.
 */
module StreamBuf {
  import opened Bytes

  const BUFFER_DELTA := 128

  /** The array after memmove(&a[0], &a[g], p - g): the live bytes are copied down to offset 0. */
  function Shifted(a: seq<byte>, g: nat, p: nat): (r: seq<byte>)
    requires g <= p <= |a|
  {
    a[g..p] + a[p - g..]
  }

  lemma NextTaken(s: seq<byte>, i: nat)
    requires i < |s|
    ensures s[..i + 1] == s[..i] + [s[i]] && s[i..] == [s[i]] + s[i + 1..]
  {
  }

  lemma ShiftedFront(a: seq<byte>, g: nat, p: nat)
    requires g <= p <= |a|
    ensures |Shifted(a, g, p)| == |a| && Shifted(a, g, p)[..p - g] == a[g..p]
    ensures g == 0 ==> Shifted(a, g, p) == a
  {
  }

  /**
    A refused request keeps the queue, whatever its bytes, exactly when there was nothing to
    move or the bytes moved down do not reach the queue: the caller can tell from the two offsets.
   */
  lemma RefusedPrepareKeepsQueue(g: nat, p: nat, n: nat)
    requires g <= p <= n
    ensures (forall a: seq<byte> | |a| == n :: Shifted(a, g, p)[g..p] == a[g..p])
            <==> g == 0 || p - g <= g
  {
    if 0 < g < p - g {
      var a: seq<byte> := seq(n, i => if i == g then 1 else 0);
      assert Shifted(a, g, p)[g..p][0] == a[2 * g] == 0;
      assert a[g..p][0] == 1;
      assert Shifted(a, g, p)[g..p] != a[g..p];
    }
  }

  class StreamBuf {
    const maxSize: nat
    var buffer: array<byte>
    var g: nat      // gptr
    var eg: nat     // egptr
    var p: nat      // pptr
    var pend: nat   // epptr

    ghost predicate Valid()
      reads this
    {
      && g <= eg <= p <= pend <= maxSize
      && pend <= buffer.Length
      && 1 <= buffer.Length
    }

    /** The input sequence: the byte queue that this buffer represents. */
    ghost function Contents(): (s: seq<byte>)
      requires Valid()
      reads this, buffer
    {
      buffer[g..p]
    }

    constructor (maximumSize: nat)
      ensures Valid() && fresh(buffer)
      ensures maxSize == maximumSize
      ensures Contents() == []
    {
      maxSize := maximumSize;
      var end := Min(maximumSize, BUFFER_DELTA);
      buffer := new byte[Max(end, 1)];
      g, eg, p, pend := 0, 0, 0, end;
    }

    method Size() returns (n: nat)
      requires Valid()
      ensures n == |Contents()|
    {
      n := p - g;
    }

    /** Copies the live bytes to the start of the array, byte by byte from the front. */
    method MoveDown()
      requires Valid()
      modifies buffer
      ensures buffer[..] == Shifted(old(buffer[..]), g, p)
    {
      var i := 0;
      while i < p - g
        invariant 0 <= i <= p - g
        invariant buffer[..i] == old(buffer[g..g + i])
        invariant buffer[i..] == old(buffer[i..])
      {
        ghost var before := buffer[..];
        assert buffer[g + i] == before[i..][g] == old(buffer[g + i]);
        buffer[i] := buffer[g + i];
        assert buffer[..i + 1] == before[..i] + [old(buffer[g + i])];
        assert old(buffer[g..g + i + 1]) == old(buffer[g..g + i]) + [old(buffer[g + i])];
        assert buffer[i + 1..] == before[i..][1..];
        i := i + 1;
      }
      assert buffer[..] == buffer[..p - g] + buffer[p - g..];
    }

    /** vector::resize: a larger array with the same leading bytes. */
    method Resize(n: nat)
      requires 1 <= n
      modifies this`buffer
      ensures fresh(buffer) && buffer.Length == n
      ensures forall i :: 0 <= i < n && i < old(buffer.Length) ==> buffer[i] == old(buffer[i])
    {
      var bigger := new byte[n];
      forall i | 0 <= i < n && i < buffer.Length {
        bigger[i] := buffer[i];
      }
      buffer := bigger;
    }

    /** Resizes for `end` bytes, of which the first `live` are in use. */
    method Grow(end: nat, ghost live: nat)
      requires live <= end && live <= buffer.Length
      modifies this`buffer
      ensures fresh(buffer) && buffer.Length == Max(end, 1)
      ensures buffer[..live] == old(buffer[..live])
    {
      Resize(Max(end, 1));
    }

    /**
      Makes room for n more bytes. Succeeds exactly when the queue and the request together fit
      in maxSize, and then leaves the queue as it was. A refused request (length_error) has
      already moved the live bytes down without moving the offsets.
     */
    method Reserve(n: nat) returns (ok: bool)
      requires Valid()
      modifies this, buffer
      ensures Valid()
      ensures buffer == old(buffer) || fresh(buffer)
      ensures ok == (old(|Contents()|) + n <= maxSize)
      ensures ok ==> Contents() == old(Contents()) && n <= pend - p
      ensures !ok ==> unchanged(this) && buffer[..] == Shifted(old(buffer[..]), g, p)
    {
      var gnext, pnext, end := g, p, pend;
      if n <= end - pnext {
        return true;
      }
      if gnext > 0 {
        MoveDown();
        pnext := pnext - gnext;
      }
      ShiftedFront(old(buffer[..]), gnext, p);
      if n > end - pnext {
        if n <= maxSize && pnext <= maxSize - n {
          end := pnext + n;
          Grow(end, pnext);
        } else {
          return false;
        }
      }
      g, eg, p, pend := 0, pnext, pnext, end;
      assert buffer[0..pnext] == buffer[..pnext];
      ok := true;
    }

    method Prepare(n: nat) returns (ok: bool)
      requires Valid()
      modifies this, buffer
      ensures Valid()
      ensures buffer == old(buffer) || fresh(buffer)
      ensures ok == (old(|Contents()|) + n <= maxSize)
      ensures ok ==> Contents() == old(Contents()) && n <= pend - p
      ensures !ok ==> unchanged(this) && buffer[..] == Shifted(old(buffer[..]), g, p)
    {
      ok := Reserve(n);
    }

    /** Moves up to n bytes of the output sequence to the end of the queue. */
    method Commit(n: nat)
      requires Valid()
      modifies this
      ensures Valid() && buffer == old(buffer) && pend == old(pend)
      ensures Contents() == old(Contents()) + buffer[old(p)..old(p) + Min(n, old(pend - p))]
    {
      var m := Min(n, pend - p);
      p := p + m;
      eg := p;
      assert buffer[g..p] == buffer[g..old(p)] + buffer[old(p)..p];
    }

    /** The data lands in the output sequence, beyond the queue. */
    method Store(data: seq<byte>)
      requires Valid() && |data| <= pend - p
      modifies buffer
      ensures Contents() == old(Contents())
      ensures buffer[p..p + |data|] == data
    {
      var i := 0;
      while i < |data|
        invariant 0 <= i <= |data|
        invariant buffer[..p] == old(buffer[..p])
        invariant buffer[p..p + i] == data[..i]
      {
        buffer[p + i] := data[i];
        assert buffer[p..p + i + 1] == buffer[p..p + i] + [data[i]];
        i := i + 1;
      }
      assert buffer[g..p] == buffer[..p][g..];
    }

    /** What a reader of a socket does: prepare room, let the data land there, commit it. */
    method ReadInto(data: seq<byte>) returns (ok: bool)
      requires Valid()
      modifies this, buffer
      ensures Valid()
      ensures buffer == old(buffer) || fresh(buffer)
      ensures ok == (old(|Contents()|) + |data| <= maxSize)
      ensures ok ==> Contents() == old(Contents()) + data
    {
      ok := Prepare(|data|);
      if ok {
        Store(data);
        Commit(|data|);
      }
    }

    /** Drops the first n bytes of the queue, or all of them. */
    method Consume(n: nat)
      requires Valid()
      modifies this
      ensures Valid() && buffer == old(buffer)
      ensures Contents() == old(Contents())[Min(n, old(|Contents()|))..]
    {
      var m := n;
      if eg < p {
        eg := p;
      }
      if g + m > p {
        m := p - g;
      }
      g := g + m;
    }

    /** Makes the front of the queue readable; false is eof. */
    method Underflow() returns (more: bool)
      requires Valid()
      modifies this`eg
      ensures Valid() && Contents() == old(Contents())
      ensures more == (Contents() != [])
      ensures more ==> g < eg
    {
      if g < p {
        eg := p;
        return true;
      }
      return false;
    }

    /**
      Appends one byte, making room when the put area is full. Fails exactly when the queue
      already holds maxSize bytes, and then keeps it.
     */
    method Overflow(c: byte) returns (ok: bool)
      requires Valid()
      modifies this, buffer
      ensures Valid()
      ensures buffer == old(buffer) || fresh(buffer)
      ensures ok == (old(|Contents()|) < maxSize)
      ensures ok ==> Contents() == old(Contents()) + [c]
      ensures !ok ==> Contents() == old(Contents())
    {
      if p == pend {
        ok := MakeRoom();
        if !ok {
          return;
        }
      }
      ghost var was := Contents();
      buffer[p] := c;
      p := p + 1;
      assert buffer[g..p] == was + [c];
      ok := true;
    }

    /** Reserves room behind a full put area, BUFFER_DELTA bytes or what is left up to the maximum. */
    method MakeRoom() returns (ok: bool)
      requires Valid() && p == pend
      modifies this, buffer
      ensures Valid()
      ensures buffer == old(buffer) || fresh(buffer)
      ensures ok == (old(|Contents()|) < maxSize)
      ensures Contents() == old(Contents()) && (ok ==> p < pend)
    {
      var size := p - g;
      if size < maxSize && maxSize - size < BUFFER_DELTA {
        ok := Reserve(maxSize - size);
      } else {
        ok := Reserve(BUFFER_DELTA);
      }
      if !ok {
        assert Shifted(old(buffer[..]), g, p) == old(buffer[..]);
      }
    }

    /** sputn: stores into the put area while there is room, and overflows when there is none. */
    method Write(data: seq<byte>) returns (ok: bool)
      requires Valid()
      modifies this, buffer
      ensures Valid()
      ensures buffer == old(buffer) || fresh(buffer)
      ensures ok == (old(|Contents()|) + |data| <= maxSize)
      ensures Contents() == old(Contents()) + data[..Min(|data|, maxSize - old(|Contents()|))]
    {
      var i := 0;
      while i < |data|
        invariant 0 <= i <= |data|
        invariant Valid()
        invariant buffer == old(buffer) || fresh(buffer)
        invariant Contents() == old(Contents()) + data[..i]
      {
        ok := PutByte(data[i]);
        if !ok {
          return;
        }
        assert data[..i + 1] == data[..i] + [data[i]];
        i := i + 1;
      }
      assert data[..i] == data;
      ok := true;
    }

    /** sputc. */
    method PutByte(c: byte) returns (ok: bool)
      requires Valid()
      modifies this, buffer
      ensures Valid()
      ensures buffer == old(buffer) || fresh(buffer)
      ensures ok == (old(|Contents()|) < maxSize)
      ensures Contents() == old(Contents()) + if ok then [c] else []
    {
      if p < pend {
        buffer[p] := c;
        p := p + 1;
        assert buffer[g..p] == old(buffer[g..p]) + [c];
        ok := true;
      } else {
        ok := Overflow(c);
      }
    }

    /** sgetn: hands out the front of the queue, refilling the get area through Underflow. */
    method Read(n: nat) returns (data: seq<byte>)
      requires Valid()
      modifies this
      ensures Valid() && buffer == old(buffer)
      ensures data == old(Contents())[..Min(n, old(|Contents()|))]
      ensures Contents() == old(Contents())[|data|..]
    {
      data := [];
      while |data| < n
        invariant Valid() && buffer == old(buffer)
        invariant |data| <= n && |data| <= old(|Contents()|)
        invariant data == old(Contents())[..|data|]
        invariant Contents() == old(Contents())[|data|..]
      {
        if g == eg {
          var more := Underflow();
          if !more {
            return;
          }
        }
        var c := TakeByte();
        NextTaken(old(Contents()), |data|);
        data := data + [c];
      }
    }

    /** The first byte of the get area. */
    method TakeByte() returns (c: byte)
      requires Valid() && g < eg
      modifies this`g
      ensures Valid() && old(Contents()) == [c] + Contents()
    {
      c := buffer[g];
      g := g + 1;
    }
  }
}
