/**
  The wire primitives under the generated message code: base-128 varints, tags,
  length-delimited records, little-endian words, and the skipping of unknown fields.
 */
module Wire {
  import opened Bytes

  const MAX_VARINT_BYTES := 10
  const RECURSION_LIMIT := 100

  datatype Read<T> = Fail | Got(value: T, rest: seq<byte>)

  // ---------------------------------------------------------------- varints

  function EncodeVarint(n: nat): (r: seq<byte>)
    ensures 1 <= |r|
  {
    if n < 128 then [n] else [n % 128 + 128] + EncodeVarint(n / 128)
  }

  /** The value of the varint at the front of s, reading at most `budget` bytes. */
  function DecodeVarint(s: seq<byte>, budget: nat): (r: Read<nat>)
    ensures r.Got? ==> |r.rest| < |s| && r.rest == s[|s| - |r.rest|..]
    decreases |s|
  {
    if s == [] || budget == 0 then Fail
    else if s[0] < 128 then Got(s[0], s[1..])
    else
      match DecodeVarint(s[1..], budget - 1)
      case Fail => Fail
      case Got(v, rest) => Got(s[0] - 128 + 128 * v, rest)
  }

  /** ReadVarint64: at most ten bytes; bits beyond the 64th are dropped. */
  function ReadVarint64(s: seq<byte>): (r: Read<u64>)
    ensures r.Got? ==> |r.rest| < |s|
  {
    match DecodeVarint(s, MAX_VARINT_BYTES)
    case Fail => Fail
    case Got(v, rest) => Got(v % TWO_64, rest)
  }

  /** ReadVarint32: reads the whole varint and keeps its low 32 bits. */
  function ReadVarint32(s: seq<byte>): (r: Read<u32>)
    ensures r.Got? ==> |r.rest| < |s|
  {
    match DecodeVarint(s, MAX_VARINT_BYTES)
    case Fail => Fail
    case Got(v, rest) => Got(v % TWO_32, rest)
  }

  function Pow128(k: nat): (r: nat)
    ensures 1 <= r
  {
    if k == 0 then 1 else 128 * Pow128(k - 1)
  }

  lemma {:induction false} DecodeEncoded(n: nat, budget: nat, s: seq<byte>)
    requires 1 <= budget && n < Pow128(budget)
    ensures DecodeVarint(EncodeVarint(n) + s, budget) == Got(n, s)
  {
    var e := EncodeVarint(n);
    if n < 128 {
      assert ([n] + s)[1..] == s;
    } else {
      assert n / 128 < Pow128(budget - 1);
      DecodeEncoded(n / 128, budget - 1, s);
      assert (e + s)[1..] == EncodeVarint(n / 128) + s;
      assert (e + s)[0] == n % 128 + 128;
    }
  }

  lemma TenBytesSuffice()
    ensures TWO_64 <= Pow128(10) && TWO_32 <= Pow128(10)
  {
    assert Pow128(4) == 0x1000_0000;
    assert Pow128(7) == 0x2_0000_0000_0000;
    assert Pow128(10) == 0x40_0000_0000_0000_0000;
  }

  /** Every 64-bit value survives the varint encoding, whatever follows it. */
  lemma Varint64RoundTrip(n: u64, s: seq<byte>)
    ensures ReadVarint64(EncodeVarint(n) + s) == Got(n, s)
    ensures ReadVarint32(EncodeVarint(n) + s) == Got(n % TWO_32, s)
  {
    TenBytesSuffice();
    DecodeEncoded(n, 10, s);
  }

  /** WriteVarint64ToArray: the shifting loop. */
  method WriteVarint(value: u64) returns (out: seq<byte>)
    ensures out == EncodeVarint(value)
  {
    var v := value;
    out := [];
    while v >= 0x80
      invariant out + EncodeVarint(v) == EncodeVarint(value)
    {
      ghost var e := EncodeVarint(v / 128);
      assert out + ([v % 128 + 128] + e) == (out + [v % 128 + 128]) + e;
      out := out + [v % 128 + 128];
      v := v / 128;
    }
    out := out + [v];
  }

  function Scale(weight: nat, digit: nat): nat { weight * digit }

  /** What a varint denotes once `acc` has been read and the next byte weighs `weight`. */
  ghost function Resumed(acc: nat, weight: nat, r: Read<nat>): Read<nat>
  {
    match r
    case Fail => Fail
    case Got(v, rest) => Got(acc + Scale(weight, v), rest)
  }

  lemma ResumeStep(acc: nat, weight: nat, s: seq<byte>, i: nat, budget: nat)
    requires i < |s| && 1 <= budget && 128 <= s[i]
    ensures Resumed(acc, weight, DecodeVarint(s[i..], budget)) ==
            Resumed(acc + Scale(weight, s[i] - 128), Scale(weight, 128), DecodeVarint(s[i + 1..], budget - 1))
  {
    assert s[i..][1..] == s[i + 1..];
    var r := DecodeVarint(s[i + 1..], budget - 1);
    if r.Got? {
      assert weight * (s[i] - 128 + 128 * r.value) == weight * (s[i] - 128) + weight * 128 * r.value;
    }
  }

  /** The loop state of ReadVarint64Slow: `result` read so far denotes the same varint as s. */
  ghost predicate Reading(s: seq<byte>, budget: nat, result: nat, weight: nat, count: nat)
  {
    && count <= budget && count <= |s|
    && DecodeVarint(s, budget) == Resumed(result, weight, DecodeVarint(s[count..], budget - count))
  }

  lemma ReadingStep(s: seq<byte>, budget: nat, result: nat, weight: nat, count: nat)
    requires Reading(s, budget, result, weight, count)
    requires count < budget && count < |s| && 128 <= s[count]
    ensures Reading(s, budget, result + Scale(weight, s[count] - 128), Scale(weight, 128), count + 1)
  {
    ResumeStep(result, weight, s, count, budget - count);
    assert budget - count - 1 == budget - (count + 1);
  }

  lemma ReadingEnds(s: seq<byte>, result: nat, weight: nat, count: nat)
    requires Reading(s, MAX_VARINT_BYTES, result, weight, count)
    requires count == MAX_VARINT_BYTES || count == |s| || s[count] < 128
    ensures ReadVarint64(s) ==
            if count == MAX_VARINT_BYTES || count == |s| then Fail
            else Got((result + Scale(weight, s[count])) % TWO_64, s[count + 1..])
  {
  }

  /** ReadVarint64Slow: one byte at a time, each seven bits further left, at most ten bytes. */
  method ReadVarint64Slow(s: seq<byte>) returns (r: Read<u64>)
    ensures r == ReadVarint64(s)
  {
    var result: nat, weight: nat, count: nat := 0, 1, 0;
    assert s[0..] == s;
    while count < MAX_VARINT_BYTES && count < |s| && 128 <= s[count]
      invariant Reading(s, MAX_VARINT_BYTES, result, weight, count)
    {
      ReadingStep(s, MAX_VARINT_BYTES, result, weight, count);
      result, weight, count := result + Scale(weight, s[count] - 128), Scale(weight, 128), count + 1;
    }
    ReadingEnds(s, result, weight, count);
    if count == MAX_VARINT_BYTES || count == |s| {
      return Fail;
    }
    r := Got((result + Scale(weight, s[count])) % TWO_64, s[count + 1..]);
  }

  // ---------------------------------------------------------------- encoded sizes

  function Log2Floor(v: nat): nat
    requires 1 <= v
  {
    if v == 1 then 0 else 1 + Log2Floor(v / 2)
  }

  /** VarintSize32 / VarintSize64: a multiplication in place of a division by seven. */
  function VarintSize(v: u64): (n: nat)
  {
    (Log2Floor(Max(v, 1)) * 9 + 73) / 64
  }

  lemma Log2Drop3(v: nat)
    requires 8 <= v
    ensures Log2Floor(v) == 3 + Log2Floor(v / 8)
  {
    var a, b := v / 2, v / 4;
    assert a / 2 == b && b / 2 == v / 8;
    assert Log2Floor(v) == 1 + Log2Floor(a);
    assert Log2Floor(a) == 1 + Log2Floor(b);
  }

  lemma Log2Drop7(v: nat)
    requires 128 <= v
    ensures Log2Floor(v) == 7 + Log2Floor(v / 128)
  {
    Log2Drop3(v);
    Log2Drop3(v / 8);
    var f := v / 8 / 8;
    assert f == v / 64 && f / 2 == v / 128;
    assert Log2Floor(f) == 1 + Log2Floor(f / 2);
  }

  lemma {:induction false} Log2Below(v: nat, k: nat, bound: nat)
    requires 1 <= v < bound && bound == Pow2(k)
    ensures Log2Floor(v) < k
  {
    if v > 1 {
      assert k > 0;
      Log2Below(v / 2, k - 1, bound / 2);
    }
  }

  function Pow2(k: nat): (r: nat)
    ensures 1 <= r
  {
    if k == 0 then 1 else 2 * Pow2(k - 1)
  }

  lemma {:induction false} Pow2Sum(i: nat, j: nat)
    ensures Pow2(i + j) == Pow2(i) * Pow2(j)
  {
    if i > 0 {
      Pow2Sum(i - 1, j);
    }
  }

  lemma Pow2Of64()
    ensures Pow2(64) == TWO_64
  {
    assert Pow2(4) == 16;
    Pow2Sum(4, 4);
    Pow2Sum(8, 8);
    Pow2Sum(16, 16);
    Pow2Sum(32, 32);
  }

  lemma {:induction false} EncodedLength(v: nat)
    requires 1 <= v
    ensures |EncodeVarint(v)| == Log2Floor(v) / 7 + 1
  {
    if v < 128 {
      assert Pow2(7) == 128;
      Log2Below(v, 7, 128);
    } else {
      Log2Drop7(v);
      EncodedLength(v / 128);
    }
  }

  /** The size computed without encoding is the length of the encoding. */
  lemma VarintSizeExact(v: u64)
    ensures VarintSize(v) == |EncodeVarint(v)|
  {
    if v != 0 {
      Pow2Of64();
      Log2Below(v, 64, TWO_64);
      EncodedLength(v);
      var k := Log2Floor(v);
      assert (k * 9 + 73) / 64 == k / 7 + 1;
    }
  }

  // ---------------------------------------------------------------- fixed words

  function LittleEndian32(v: u32): (r: seq<byte>)
    ensures |r| == 4
  {
    [v % 256, v / 256 % 256, v / 0x1_0000 % 256, v / 0x100_0000]
  }

  function ReadLittleEndian32(s: seq<byte>): (r: Read<u32>)
    ensures r.Got? <==> 4 <= |s|
    ensures r.Got? ==> r.rest == s[4..]
  {
    if |s| < 4 then Fail
    else Got(s[0] as int + s[1] as int * 256 + s[2] as int * 0x1_0000 + s[3] as int * 0x100_0000, s[4..])
  }

  lemma LittleEndian32RoundTrip(v: u32, s: seq<byte>)
    ensures ReadLittleEndian32(LittleEndian32(v) + s) == Got(v, s)
  {
    var e := LittleEndian32(v);
    assert (e + s)[4..] == s;
    assert v / 0x1_0000 == v / 256 / 256 && v / 0x100_0000 == v / 256 / 256 / 256;
  }

  // ---------------------------------------------------------------- tags and unknown fields

  datatype TagRead = End | Invalid | Tag(tag: u32, rest: seq<byte>)

  /** End of the enclosing limit, a zero or malformed tag, or a tag. */
  function ReadTag(s: seq<byte>): (r: TagRead)
    ensures r.End? <==> s == []
    ensures r.Tag? ==> |r.rest| < |s| && r.tag != 0
  {
    if s == [] then End
    else
      match ReadVarint32(s)
      case Fail => Invalid
      case Got(v, rest) => if v == 0 then Invalid else Tag(v, rest)
  }

  /** WireFormat::SkipField: steps over a field by its wire type; groups nest up to the budget. */
  function SkipField(tag: u32, s: seq<byte>, budget: nat): (r: Read<()>)
    ensures r.Got? ==> |r.rest| <= |s|
    decreases |s|, 1
  {
    if tag / 8 == 0 then Fail
    else if tag % 8 == 0 then
      match ReadVarint64(s)
      case Fail => Fail
      case Got(_, rest) => Got((), rest)
    else if tag % 8 == 1 then
      if 8 <= |s| then Got((), s[8..]) else Fail
    else if tag % 8 == 2 then
      match ReadVarint32(s)
      case Fail => Fail
      case Got(n, rest) => if n < TWO_31 && n <= |rest| then Got((), rest[n..]) else Fail
    else if tag % 8 == 3 then
      if budget == 0 then Fail
      else
        match SkipGroup(s, budget - 1)
        case Fail => Fail
        case Got(last, rest) => if last == tag + 1 then Got((), rest) else Fail
    else if tag % 8 == 5 then
      if 4 <= |s| then Got((), s[4..]) else Fail
    else Fail
  }

  /** WireFormat::SkipMessage inside a group: the end-group tag that stopped it. */
  function SkipGroup(s: seq<byte>, budget: nat): (r: Read<u32>)
    ensures r.Got? ==> |r.rest| <= |s|
    decreases |s|, 0
  {
    match ReadTag(s)
    case End => Fail
    case Invalid => Fail
    case Tag(t, rest) =>
      if t % 8 == 4 then Got(t, rest)
      else
        match SkipField(t, rest, budget)
        case Fail => Fail
        case Got(_, rest') => SkipGroup(rest', budget)
  }

  // ---------------------------------------------------------------- the parse loop of every message

  /** One turn of a message's switch: the message so far, and the bytes left unless it failed. */
  datatype Turn<M> = Bad(msg: M) | Next(msg: M, rest: seq<byte>)

  /** The outcome of a parse. The message keeps what was read before a failure. */
  datatype Parsed<M> = Parsed(ok: bool, msg: M)

  function Turned<M>(ok: bool, msg: M, rest: seq<byte>): Turn<M>
  {
    if ok then Next(msg, rest) else Bad(msg)
  }

  /** MergePartialFromCodedStream: read a tag, take the turn it selects, until the limit. */
  function ParseLoop<M>(field: (M, u32, seq<byte>) -> Turn<M>, msg: M, s: seq<byte>): Parsed<M>
    decreases |s|
  {
    match ReadTag(s)
    case End => Parsed(true, msg)
    case Invalid => Parsed(false, msg)
    case Tag(t, rest) =>
      match field(msg, t, rest)
      case Bad(msg') => Parsed(false, msg')
      case Next(msg', rest') =>
        if |rest| < |rest'| then Parsed(false, msg') else ParseLoop(field, msg', rest')
  }

  method MergePartial<M>(field: (M, u32, seq<byte>) -> Turn<M>, msg: M, s: seq<byte>) returns (r: Parsed<M>)
    ensures r == ParseLoop(field, msg, s)
  {
    var m, input := msg, s;
    while true
      invariant ParseLoop(field, m, input) == ParseLoop(field, msg, s)
      decreases |input|
    {
      match ReadTag(input)
      case End => return Parsed(true, m);
      case Invalid => return Parsed(false, m);
      case Tag(t, rest) =>
        match field(m, t, rest)
        case Bad(m') => return Parsed(false, m');
        case Next(m', rest') =>
          if |rest| < |rest'| {
            return Parsed(false, m');
          }
          m, input := m', rest';
    }
  }

  /** With `s` behind it, parsing `a` turns `m` into `m'`. */
  ghost predicate RunsBefore<M>(field: (M, u32, seq<byte>) -> Turn<M>, m: M, a: seq<byte>, m': M, s: seq<byte>)
  {
    ParseLoop(field, m, a + s) == ParseLoop(field, m', s)
  }

  /** Parsing `a` turns `m` into `m'`, whatever bytes follow. */
  ghost predicate Runs<M>(field: (M, u32, seq<byte>) -> Turn<M>, m: M, a: seq<byte>, m': M)
  {
    forall s: seq<byte> :: RunsBefore(field, m, a, m', s)
  }

  lemma RunsNothing<M>(field: (M, u32, seq<byte>) -> Turn<M>, m: M)
    ensures Runs(field, m, [], m)
  {
    forall s: seq<byte> ensures RunsBefore(field, m, [], m, s) {
      assert [] + s == s;
    }
  }

  lemma RunsThen<M>(field: (M, u32, seq<byte>) -> Turn<M>, m: M, a: seq<byte>, m': M, b: seq<byte>, m'': M)
    requires Runs(field, m, a, m') && Runs(field, m', b, m'')
    ensures Runs(field, m, a + b, m'')
  {
    forall s: seq<byte> ensures RunsBefore(field, m, a + b, m'', s) {
      assert RunsBefore(field, m, a, m', b + s) && RunsBefore(field, m', b, m'', s);
      assert a + b + s == a + (b + s);
    }
  }

  lemma RunsWhole<M>(field: (M, u32, seq<byte>) -> Turn<M>, m: M, a: seq<byte>, m': M)
    requires Runs(field, m, a, m')
    ensures ParseLoop(field, m, a) == Parsed(true, m')
  {
    assert RunsBefore(field, m, a, m', []);
    assert a + [] == a;
  }

  lemma OneByteTag(tag: u32, s: seq<byte>)
    requires 1 <= tag < 128
    ensures ReadTag([tag] + s) == Tag(tag, s)
  {
    assert ([tag] + s)[1..] == s;
  }

  /** A one-byte tag followed by a body that its turn consumes exactly. */
  lemma OneField<M>(field: (M, u32, seq<byte>) -> Turn<M>, m: M, tag: u32, body: seq<byte>, m': M, s: seq<byte>)
    requires 1 <= tag < 128 && field(m, tag, body + s) == Next(m', s)
    ensures ParseLoop(field, m, [tag] + body + s) == ParseLoop(field, m', s)
  {
    assert [tag] + body + s == [tag] + (body + s);
    OneByteTag(tag, body + s);
  }

  lemma RunsOneField<M>(field: (M, u32, seq<byte>) -> Turn<M>, m: M, tag: u32, body: seq<byte>, m': M)
    requires 1 <= tag < 128
    requires forall s: seq<byte> :: field(m, tag, body + s) == Next(m', s)
    ensures Runs(field, m, [tag] + body, m')
  {
    forall s: seq<byte> ensures RunsBefore(field, m, [tag] + body, m', s) {
      OneField(field, m, tag, body, m', s);
    }
  }

  // ---------------------------------------------------------------- field values

  const WIRE_VARINT := 0
  const WIRE_LENGTH := 2
  const WIRE_FIXED32 := 5

  /** A field read: whether it succeeded, the field's new value, and the bytes left. */
  datatype FieldRead<T> = FieldRead(ok: bool, value: T, rest: seq<byte>)

  /** ReadString then VerifyUtf8String: a string cut short keeps the bytes there were. */
  function ReadText(utf8: seq<byte> -> bool, previous: seq<byte>, s: seq<byte>): (r: FieldRead<seq<byte>>)
    ensures |r.rest| <= |s|
  {
    match ReadVarint32(s)
    case Fail => FieldRead(false, previous, s)
    case Got(n, rest) =>
      if TWO_31 <= n then FieldRead(false, previous, rest)
      else if |rest| < n then FieldRead(false, rest, [])
      else FieldRead(utf8(rest[..n]), rest[..n], rest[n..])
  }

  function ReadInt32(previous: i32, s: seq<byte>): (r: FieldRead<i32>)
    ensures |r.rest| <= |s|
  {
    match ReadVarint32(s)
    case Fail => FieldRead(false, previous, s)
    case Got(v, rest) => FieldRead(true, ToI32(v), rest)
  }

  function ReadFloat(previous: u32, s: seq<byte>): (r: FieldRead<u32>)
    ensures |r.rest| <= |s|
  {
    match ReadLittleEndian32(s)
    case Fail => FieldRead(false, previous, s)
    case Got(v, rest) => FieldRead(true, v, rest)
  }

  /**
    ReadMessage: a length, then the nested parse under that limit. A length beyond the bytes
    there are does not narrow the limit, so the nested parse takes all of them.
   */
  function ReadNested<M>(field: (M, u32, seq<byte>) -> Turn<M>, empty: M, s: seq<byte>): (r: FieldRead<M>)
    ensures |r.rest| <= |s|
  {
    match ReadVarint64(s)
    case Fail => FieldRead(false, empty, s)
    case Got(n, rest) =>
      if TWO_31 <= n then FieldRead(false, empty, rest)
      else
        var k := Min(n, |rest|);
        var p := ParseLoop(field, empty, rest[..k]);
        FieldRead(p.ok, p.msg, rest[k..])
  }

  function SignExtended(v: i32): u64 { if v < 0 then v + TWO_64 else v }

  function IsZeroFloat(bits: u32): bool { bits == 0 || bits == TWO_31 }

  function Delimited(payload: seq<byte>): seq<byte> { EncodeVarint(|payload|) + payload }

  function TextField(number: nat, text: seq<byte>): seq<byte>
    requires 1 <= number < 16
  {
    if text == [] then [] else [number * 8 + WIRE_LENGTH] + Delimited(text)
  }

  function IntField(number: nat, v: i32): seq<byte>
    requires 1 <= number < 16
  {
    if v == 0 then [] else [number * 8 + WIRE_VARINT] + EncodeVarint(SignExtended(v))
  }

  function FloatField(number: nat, bits: u32): seq<byte>
    requires 1 <= number < 16
  {
    if IsZeroFloat(bits) then [] else [number * 8 + WIRE_FIXED32] + LittleEndian32(bits)
  }

  function NestedField(number: nat, payload: seq<byte>): seq<byte>
    requires 1 <= number < 16
  {
    [number * 8 + WIRE_LENGTH] + Delimited(payload)
  }

  lemma DelimitedReads(payload: seq<byte>, s: seq<byte>)
    requires |payload| < TWO_31
    ensures ReadVarint64(Delimited(payload) + s) == Got(|payload|, payload + s)
    ensures ReadVarint32(Delimited(payload) + s) == Got(|payload|, payload + s)
  {
    Varint64RoundTrip(|payload|, payload + s);
    assert Delimited(payload) + s == EncodeVarint(|payload|) + (payload + s);
  }

  lemma ReadTextBack(utf8: seq<byte> -> bool, previous: seq<byte>, text: seq<byte>, s: seq<byte>)
    requires |text| < TWO_31
    ensures ReadText(utf8, previous, Delimited(text) + s) == FieldRead(utf8(text), text, s)
  {
    DelimitedReads(text, s);
    assert (text + s)[..|text|] == text && (text + s)[|text|..] == s;
  }

  lemma LowWordOfSignExtended(v: i32)
    ensures ToI32(SignExtended(v) % TWO_32) == v
  {
    var x: int := SignExtended(v);
    if v < 0 {
      assert x == (v + TWO_32) + 0x1_0000_0000 * 0xFFFF_FFFF;
      assert x % 0x1_0000_0000 == v + TWO_32;
    }
  }

  lemma ReadInt32Back(previous: i32, v: i32, s: seq<byte>)
    ensures ReadInt32(previous, EncodeVarint(SignExtended(v)) + s) == FieldRead(true, v, s)
  {
    Varint64RoundTrip(SignExtended(v), s);
    LowWordOfSignExtended(v);
  }

  lemma ReadNestedBack<M>(field: (M, u32, seq<byte>) -> Turn<M>, empty: M, payload: seq<byte>, m: M, s: seq<byte>)
    requires |payload| < TWO_31
    requires Runs(field, empty, payload, m)
    ensures ReadNested(field, empty, Delimited(payload) + s) == FieldRead(true, m, s)
  {
    DelimitedReads(payload, s);
    assert (payload + s)[..|payload|] == payload && (payload + s)[|payload|..] == s;
    RunsWhole(field, empty, payload, m);
  }

  // ---------------------------------------------------------------- field sizes

  function LengthDelimitedSize(n: u32): nat { n + VarintSize(n) }

  function Int32Size(v: i32): nat { if v < 0 then 10 else VarintSize(v) }

  lemma {:induction false} NegativeTakesTenBytes(n: nat, k: nat)
    requires 1 <= k && Pow128(k - 1) <= n < Pow128(k)
    ensures |EncodeVarint(n)| == k
  {
    if n >= 128 {
      assert k >= 2;
      NegativeTakesTenBytes(n / 128, k - 1);
    }
  }

  lemma FieldSizesExact(text: seq<byte>, v: i32)
    requires |text| < TWO_32
    ensures LengthDelimitedSize(|text|) == |Delimited(text)|
    ensures Int32Size(v) == |EncodeVarint(SignExtended(v))|
  {
    VarintSizeExact(|text|);
    if v < 0 {
      TenBytesSuffice();
      assert Pow128(3) == 0x20_0000;
      assert Pow128(6) == 0x400_0000_0000;
      assert Pow128(9) == 0x8000_0000_0000_0000;
      NegativeTakesTenBytes(v + TWO_64, 10);
    } else {
      VarintSizeExact(v);
    }
  }
}
