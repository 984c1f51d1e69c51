/**
  Which bytes the wire primitives read past. A varint and the body of an unknown field are
  described by their own shape, and the readers are proved to take exactly the bytes of that
  shape. Fields that a message does not know change nothing, wherever they stand.
 */
module WireFields {
  import opened Bytes
  import opened Wire

  // ---------------------------------------------------------------- varints

  /** Every byte but the last has its high bit set. */
  predicate Chained(e: seq<byte>)
  {
    e != [] && e[|e| - 1] < 128 && forall i :: 0 <= i < |e| - 1 ==> 128 <= e[i]
  }

  predicate IsVarint(e: seq<byte>) { Chained(e) && |e| <= 10 }

  /** The number of a chain of bytes: seven bits from each, the lowest first. */
  function Denotes(e: seq<byte>): nat
  {
    if e == [] then 0 else Denotes(e[..|e| - 1]) + Pow128(|e| - 1) * (e[|e| - 1] % 128)
  }

  lemma {:induction false} DenotesFront(e: seq<byte>)
    requires e != []
    ensures Denotes(e) == e[0] % 128 + 128 * Denotes(e[1..])
  {
    var n := |e| - 1;
    if n == 0 {
      assert e[..0] == [] && e[1..] == [];
    } else {
      DenotesFront(e[..n]);
      assert e[..n][1..] == e[1..][..n - 1];
      var d := e[n] % 128;
      assert Pow128(n) * d == 128 * (Pow128(n - 1) * d);
    }
  }

  /** The same number by Horner's rule. */
  function Horner(e: seq<byte>): nat
  {
    if e == [] then 0 else (if e[0] < 128 then e[0] else e[0] - 128) + 128 * Horner(e[1..])
  }

  lemma {:induction false} HornerDenotes(e: seq<byte>)
    ensures Horner(e) == Denotes(e)
  {
    if e != [] {
      HornerDenotes(e[1..]);
      DenotesFront(e);
    }
  }

  lemma ChainTail(e: seq<byte>)
    requires Chained(e) && 1 < |e|
    ensures 128 <= e[0] && Chained(e[1..])
  {
    var t := e[1..];
    forall i | 0 <= i < |t| - 1 ensures 128 <= t[i] { assert t[i] == e[i + 1]; }
  }

  lemma HornerLast(e: seq<byte>, s: seq<byte>, budget: nat)
    requires Chained(e) && |e| == 1 <= budget
    ensures DecodeVarint(e + s, budget) == Got(Horner(e), s)
  {
    assert (e + s)[1..] == s;
  }

  lemma DecodeFront(s: seq<byte>, budget: nat, v: nat, rest: seq<byte>)
    requires s != [] && 0 < budget && 128 <= s[0] && DecodeVarint(s[1..], budget - 1) == Got(v, rest)
    ensures DecodeVarint(s, budget) == Got(s[0] - 128 + 128 * v, rest)
  {
  }

  lemma TailBehind(e: seq<byte>, s: seq<byte>)
    requires e != []
    ensures (e + s)[0] == e[0] && (e + s)[1..] == e[1..] + s
  {
  }

  lemma {:induction false} HornerReads(e: seq<byte>, s: seq<byte>, budget: nat)
    requires Chained(e) && |e| <= budget
    ensures DecodeVarint(e + s, budget) == Got(Horner(e), s)
    decreases |e|
  {
    if |e| == 1 {
      HornerLast(e, s, budget);
    } else {
      ChainTail(e);
      HornerReads(e[1..], s, budget - 1);
      TailBehind(e, s);
      DecodeFront(e + s, budget, Horner(e[1..]), s);
    }
  }

  lemma ChainReads(e: seq<byte>, s: seq<byte>, budget: nat)
    requires Chained(e) && |e| <= budget
    ensures DecodeVarint(e + s, budget) == Got(Denotes(e), s)
  {
    HornerReads(e, s, budget);
    HornerDenotes(e);
  }

  lemma ChainFront(x: byte, more: seq<byte>)
    requires 128 <= x && Chained(more)
    ensures Chained([x] + more) && Horner([x] + more) == x - 128 + 128 * Horner(more)
  {
    assert ([x] + more)[1..] == more;
  }

  lemma {:induction false} HornerWas(s: seq<byte>, budget: nat) returns (e: seq<byte>)
    requires DecodeVarint(s, budget).Got?
    ensures Chained(e) && |e| <= budget
    ensures s == e + DecodeVarint(s, budget).rest && DecodeVarint(s, budget).value == Horner(e)
  {
    if s[0] < 128 {
      e := [s[0]];
    } else {
      var more := HornerWas(s[1..], budget - 1);
      ChainFront(s[0], more);
      e := [s[0]] + more;
      assert s == [s[0]] + s[1..];
    }
  }

  lemma ChainWas(s: seq<byte>, budget: nat) returns (e: seq<byte>)
    requires DecodeVarint(s, budget).Got?
    ensures Chained(e) && |e| <= budget
    ensures s == e + DecodeVarint(s, budget).rest && DecodeVarint(s, budget).value == Denotes(e)
  {
    e := HornerWas(s, budget);
    HornerDenotes(e);
  }

  /** The bytes e make up a varint of value v once it is cut to the modulus. */
  ghost predicate Spells(e: seq<byte>, modulus: nat, v: nat)
    requires 0 < modulus
  {
    IsVarint(e) && v == Denotes(e) % modulus
  }

  /** ReadVarint64 and ReadVarint32 read one to ten chained bytes, and nothing else. */
  lemma VarintIff(s: seq<byte>, v: nat, rest: seq<byte>)
    ensures ReadVarint64(s) == Got(v, rest) <==> exists e :: Spells(e, TWO_64, v) && s == e + rest
    ensures ReadVarint32(s) == Got(v, rest) <==> exists e :: Spells(e, TWO_32, v) && s == e + rest
  {
    if DecodeVarint(s, 10).Got? {
      var e := ChainWas(s, 10);
      assert Spells(e, TWO_64, Denotes(e) % TWO_64) && Spells(e, TWO_32, Denotes(e) % TWO_32);
    }
    forall e | IsVarint(e) && s == e + rest ensures DecodeVarint(s, 10) == Got(Denotes(e), rest) {
      ChainReads(e, rest, 10);
    }
  }

  // ---------------------------------------------------------------- fields

  /** The body of a field, one shape for each wire type that can be skipped. */
  datatype Body =
    | Varint(bytes: seq<byte>)
    | Fixed64(bytes: seq<byte>)
    | Block(length: seq<byte>, payload: seq<byte>)
    | Group(fields: Fields, end: seq<byte>)
    | Fixed32(bytes: seq<byte>)

  datatype Fields = Nothing | Field(key: seq<byte>, body: Body, more: Fields)

  function BodyBytes(b: Body): seq<byte>
  {
    match b
    case Varint(e) => e
    case Fixed64(e) => e
    case Block(l, p) => l + p
    case Group(fs, end) => FieldsBytes(fs) + end
    case Fixed32(e) => e
  }

  function FieldsBytes(fs: Fields): seq<byte>
  {
    match fs
    case Nothing => []
    case Field(k, b, more) => k + BodyBytes(b) + FieldsBytes(more)
  }

  function KeyOf(k: seq<byte>): u32 { Denotes(k) % TWO_32 }

  /** A key with a field number: the low three bits are the wire type. */
  predicate IsKey(k: seq<byte>) { IsVarint(k) && 8 <= KeyOf(k) }

  /** The body is one the tag announces, with groups nested no deeper than `depth`. */
  predicate Fits(tag: u32, b: Body, depth: nat)
    decreases b
  {
    match b
    case Varint(e) => tag % 8 == 0 && IsVarint(e)
    case Fixed64(e) => tag % 8 == 1 && |e| == 8
    case Block(l, p) => tag % 8 == 2 && IsVarint(l) && Denotes(l) % TWO_32 == |p| && |p| < TWO_31
    case Group(fs, end) =>
      tag % 8 == 3 && 0 < depth && FieldsFit(fs, depth - 1) && IsVarint(end) && KeyOf(end) == tag + 1
    case Fixed32(e) => tag % 8 == 5 && |e| == 4
  }

  predicate FieldsFit(fs: Fields, depth: nat)
    decreases fs
  {
    match fs
    case Nothing => true
    case Field(k, b, more) => IsKey(k) && Fits(KeyOf(k), b, depth) && FieldsFit(more, depth)
  }

  lemma KeyReads(k: seq<byte>, s: seq<byte>)
    requires IsVarint(k) && KeyOf(k) != 0
    ensures ReadTag(k + s) == Tag(KeyOf(k), s)
  {
    ChainReads(k, s, 10);
  }

  lemma KeyWas(s: seq<byte>) returns (k: seq<byte>)
    requires ReadTag(s).Tag?
    ensures IsVarint(k) && KeyOf(k) == ReadTag(s).tag && s == k + ReadTag(s).rest
  {
    k := ChainWas(s, 10);
  }

  lemma BlockReads(l: seq<byte>, p: seq<byte>, s: seq<byte>)
    requires IsVarint(l)
    ensures DecodeVarint(l + p + s, 10) == Got(Denotes(l), p + s)
    ensures (p + s)[..|p|] == p && (p + s)[|p|..] == s
  {
    Regrouped(l, p, s);
    ChainReads(l, p + s, 10);
    SplitBack(p, s);
  }

  /** SkipField steps over any body that fits its tag, and stops right behind it. */
  lemma {:induction false} SkipsBody(tag: u32, b: Body, depth: nat, s: seq<byte>)
    requires 8 <= tag && Fits(tag, b, depth)
    ensures SkipField(tag, BodyBytes(b) + s, depth) == Got((), s)
    decreases b
  {
    match b
    case Varint(e) => ChainReads(e, s, 10);
    case Fixed64(e) => SplitBack(e, s);
    case Block(l, p) => BlockReads(l, p, s);
    case Group(fs, end) =>
      Regrouped(FieldsBytes(fs), end, s);
      SkipsFields(fs, depth - 1, end, s);
    case Fixed32(e) => SplitBack(e, s);
  }

  lemma {:induction false} SkipsFields(fs: Fields, depth: nat, end: seq<byte>, s: seq<byte>)
    requires FieldsFit(fs, depth) && IsVarint(end) && KeyOf(end) % 8 == 4
    ensures SkipGroup(FieldsBytes(fs) + (end + s), depth) == Got(KeyOf(end), s)
    decreases fs
  {
    match fs
    case Nothing =>
      KeyReads(end, s);
      assert [] + (end + s) == end + s;
    case Field(k, b, more) =>
      var rest := FieldsBytes(more) + (end + s);
      FieldInFront(k, b, more, end + s);
      KeyReads(k, BodyBytes(b) + rest);
      SkipsBody(KeyOf(k), b, depth, rest);
      SkipsFields(more, depth, end, s);
  }

  lemma FieldInFront(k: seq<byte>, b: Body, more: Fields, s: seq<byte>)
    ensures FieldsBytes(Field(k, b, more)) + s == k + (BodyBytes(b) + (FieldsBytes(more) + s))
  {
  }

  lemma VarintWas(tag: u32, s: seq<byte>, depth: nat) returns (b: Body)
    requires tag % 8 == 0 && SkipField(tag, s, depth).Got?
    ensures 8 <= tag && Fits(tag, b, depth) && s == BodyBytes(b) + SkipField(tag, s, depth).rest
  {
    var e := ChainWas(s, 10);
    b := Varint(e);
  }

  lemma BlockWas(s: seq<byte>) returns (b: Body)
    requires var r := ReadVarint32(s); r.Got? && r.value < TWO_31 && r.value <= |r.rest|
    ensures var r := ReadVarint32(s);
            && b.Block? && IsVarint(b.length) && Denotes(b.length) % TWO_32 == |b.payload| == r.value
            && s == BodyBytes(b) + r.rest[r.value..] && b.payload == r.rest[..r.value]
  {
    var l := ChainWas(s, 10);
    var r := ReadVarint32(s);
    b := Block(l, r.rest[..r.value]);
    SplitBehind(l, r.rest, r.value);
  }

  lemma SplitBehind(l: seq<byte>, s: seq<byte>, k: nat)
    requires k <= |s|
    ensures l + s == l + s[..k] + s[k..]
  {
  }

  lemma BytesWere(tag: u32, s: seq<byte>, depth: nat) returns (b: Body)
    requires tag % 8 == 2 && SkipField(tag, s, depth).Got?
    ensures 8 <= tag && Fits(tag, b, depth) && s == BodyBytes(b) + SkipField(tag, s, depth).rest
  {
    b := BlockWas(s);
  }

  lemma WordsWere(tag: u32, s: seq<byte>, depth: nat) returns (b: Body)
    requires tag % 8 !in {0, 2, 3} && SkipField(tag, s, depth).Got?
    ensures 8 <= tag && Fits(tag, b, depth) && s == BodyBytes(b) + SkipField(tag, s, depth).rest
  {
    b := if tag % 8 == 1 then Fixed64(s[..8]) else Fixed32(s[..4]);
  }

  lemma {:induction false} BodyWas(tag: u32, s: seq<byte>, depth: nat) returns (b: Body)
    requires SkipField(tag, s, depth).Got?
    ensures 8 <= tag && Fits(tag, b, depth) && s == BodyBytes(b) + SkipField(tag, s, depth).rest
    decreases |s|, 1
  {
    if tag % 8 == 0 {
      b := VarintWas(tag, s, depth);
    } else if tag % 8 == 2 {
      b := BytesWere(tag, s, depth);
    } else if tag % 8 == 3 {
      var fs, end := FieldsWere(s, depth - 1);
      b := Group(fs, end);
    } else {
      b := WordsWere(tag, s, depth);
    }
  }

  lemma {:induction false} FieldsWere(s: seq<byte>, depth: nat) returns (fs: Fields, end: seq<byte>)
    requires SkipGroup(s, depth).Got?
    ensures FieldsFit(fs, depth) && IsVarint(end) && KeyOf(end) == SkipGroup(s, depth).value && KeyOf(end) % 8 == 4
    ensures s == FieldsBytes(fs) + (end + SkipGroup(s, depth).rest)
    decreases |s|, 0
  {
    var k := KeyWas(s);
    var rest := ReadTag(s).rest;
    if KeyOf(k) % 8 == 4 {
      fs, end := Nothing, k;
    } else {
      var b := BodyWas(KeyOf(k), rest, depth);
      var more;
      more, end := FieldsWere(SkipField(KeyOf(k), rest, depth).rest, depth);
      fs := Field(k, b, more);
      FieldInFront(k, b, more, end + SkipGroup(s, depth).rest);
    }
  }

  ghost predicate IsBody(tag: u32, b: Body, depth: nat, s: seq<byte>, rest: seq<byte>)
  {
    8 <= tag && Fits(tag, b, depth) && s == BodyBytes(b) + rest
  }

  /**
    SkipField takes exactly the bodies that fit: it fails on field number zero, on the wire types
    4, 6 and 7, on a body cut short, and on a group that is too deep or closed by another number.
   */
  lemma SkipFieldIff(tag: u32, s: seq<byte>, depth: nat, rest: seq<byte>)
    ensures SkipField(tag, s, depth) == Got((), rest) <==> exists b :: IsBody(tag, b, depth, s, rest)
  {
    if SkipField(tag, s, depth) == Got((), rest) {
      var b := BodyWas(tag, s, depth);
      assert IsBody(tag, b, depth, s, rest);
    }
    forall b | IsBody(tag, b, depth, s, rest) ensures SkipField(tag, s, depth) == Got((), rest) {
      SkipsBody(tag, b, depth, rest);
    }
  }

  // ---------------------------------------------------------------- unknown fields in a message

  function PastField<M>(m: M, r: Read<()>): Turn<M> { if r.Got? then Next(m, r.rest) else Bad(m) }

  /** Tags outside `known` are handed to SkipField, and leave the message as it is. */
  ghost predicate Ignores<M(!new)>(f: (M, u32, seq<byte>) -> Turn<M>, known: set<int>, depth: nat)
  {
    forall m: M, t: u32, s: seq<byte> :: t !in known ==> f(m, t, s) == PastField(m, SkipField(t, s, depth))
  }

  predicate NoneKnown(fs: Fields, known: set<int>)
  {
    fs.Nothing? || (KeyOf(fs.key) !in known && NoneKnown(fs.more, known))
  }

  lemma UnknownField<M(!new)>(f: (M, u32, seq<byte>) -> Turn<M>, known: set<int>, depth: nat, m: M,
                              k: seq<byte>, b: Body)
    requires Ignores(f, known, depth) && IsKey(k) && KeyOf(k) !in known && Fits(KeyOf(k), b, depth)
    ensures Runs(f, m, k + BodyBytes(b), m)
  {
    forall s: seq<byte> ensures RunsBefore(f, m, k + BodyBytes(b), m, s) {
      assert k + BodyBytes(b) + s == k + (BodyBytes(b) + s);
      KeyReads(k, BodyBytes(b) + s);
      SkipsBody(KeyOf(k), b, depth, s);
      assert f(m, KeyOf(k), BodyBytes(b) + s) == Next(m, s);
    }
  }

  lemma {:induction false} UnknownFields<M(!new)>(f: (M, u32, seq<byte>) -> Turn<M>, known: set<int>, depth: nat,
                                                        m: M, fs: Fields)
    requires Ignores(f, known, depth) && FieldsFit(fs, depth) && NoneKnown(fs, known)
    ensures Runs(f, m, FieldsBytes(fs), m)
  {
    match fs
    case Nothing => RunsNothing(f, m);
    case Field(k, b, more) =>
      UnknownField(f, known, depth, m, k, b);
      UnknownFields(f, known, depth, m, more);
      RunsThen(f, m, k + BodyBytes(b), m, FieldsBytes(more), m);
  }

  /** Bytes that are any number of fields with tags outside `known`. */
  ghost predicate Foreign(pad: seq<byte>, known: set<int>, depth: nat)
  {
    exists fs :: FieldsFit(fs, depth) && NoneKnown(fs, known) && pad == FieldsBytes(fs)
  }

  lemma ForeignRuns<M(!new)>(f: (M, u32, seq<byte>) -> Turn<M>, known: set<int>, depth: nat, m: M, pad: seq<byte>)
    requires Ignores(f, known, depth) && Foreign(pad, known, depth)
    ensures Runs(f, m, pad, m)
  {
    var fs :| FieldsFit(fs, depth) && NoneKnown(fs, known) && pad == FieldsBytes(fs);
    UnknownFields(f, known, depth, m, fs);
  }

  /** Behind any bytes that parse, unknown fields can be put in or left out. */
  lemma UnknownAnywhere<M(!new)>(f: (M, u32, seq<byte>) -> Turn<M>, known: set<int>, depth: nat, m: M,
                           a: seq<byte>, m': M, pad: seq<byte>, s: seq<byte>)
    requires Ignores(f, known, depth) && Foreign(pad, known, depth) && Runs(f, m, a, m')
    ensures ParseLoop(f, m, a + pad + s) == ParseLoop(f, m, a + s)
  {
    ForeignRuns(f, known, depth, m', pad);
    RunsThen(f, m, a, m', pad, m');
    assert RunsBefore(f, m, a + pad, m', s) && RunsBefore(f, m, a, m', s);
  }

  /** pads[0] pieces[0] pads[1] pieces[1] ... and a last pad. */
  function Woven(pieces: seq<seq<byte>>, pads: seq<seq<byte>>): seq<byte>
    requires |pads| == |pieces| + 1
  {
    if pieces == [] then pads[0]
    else
      var n := |pieces| - 1;
      Woven(pieces[..n], pads[..n + 1]) + pieces[n] + pads[n + 1]
  }

  ghost predicate AllForeign(pads: seq<seq<byte>>, known: set<int>, depth: nat)
  {
    forall i {:trigger pads[i]} :: 0 <= i < |pads| ==> Foreign(pads[i], known, depth)
  }

  /** Each piece takes the parse from one message to the next. */
  ghost predicate Leads<M>(f: (M, u32, seq<byte>) -> Turn<M>, ms: seq<M>, pieces: seq<seq<byte>>)
  {
    && |ms| == |pieces| + 1
    && forall i {:trigger pieces[i]} :: 0 <= i < |pieces| ==> Runs(f, ms[i], pieces[i], ms[i + 1])
  }

  lemma {:induction false} WovenRuns<M(!new)>(f: (M, u32, seq<byte>) -> Turn<M>, known: set<int>, depth: nat,
                                       ms: seq<M>, pieces: seq<seq<byte>>, pads: seq<seq<byte>>)
    requires Ignores(f, known, depth) && |pads| == |pieces| + 1
    requires AllForeign(pads, known, depth) && Leads(f, ms, pieces)
    ensures Runs(f, ms[0], Woven(pieces, pads), ms[|pieces|])
  {
    if pieces == [] {
      ForeignRuns(f, known, depth, ms[0], pads[0]);
    } else {
      var n := |pieces| - 1;
      WovenRuns(f, known, depth, ms[..n + 1], pieces[..n], pads[..n + 1]);
      var front := Woven(pieces[..n], pads[..n + 1]);
      RunsThen(f, ms[0], front, ms[n], pieces[n], ms[n + 1]);
      ForeignRuns(f, known, depth, ms[n + 1], pads[n + 1]);
      RunsThen(f, ms[0], front + pieces[n], ms[n + 1], pads[n + 1], ms[n + 1]);
    }
  }

  lemma LeadsOn<M>(f: (M, u32, seq<byte>) -> Turn<M>, ms: seq<M>, pieces: seq<seq<byte>>, piece: seq<byte>, m: M)
    requires Leads(f, ms, pieces) && Runs(f, ms[|pieces|], piece, m)
    ensures Leads(f, ms + [m], pieces + [piece])
  {
  }
}
