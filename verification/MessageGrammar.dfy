/**
  What the five message parsers accept, and what it parses to: the input is a sequence of fields
  in any order, each with a body that fits its tag, and every member of the message is read off
  that sequence. Both directions hold, for every input.
 */
module MessageGrammar {
  import opened Bytes
  import opened Wire
  import opened WireFields
  import opened Messages

  // ---------------------------------------------------------------- sequences of fields

  /**
    The fields of one message type: the tags of its nested messages, the depth for groups, which
    bodies it accepts, and what a field does to the message.
   */
  datatype Grammar<!M> = Grammar(nested: set<int>, depth: nat, ok: (u32, Body) -> bool, put: (M, u32, Body) -> M)

  /**
    The length of a nested message is read as 64 bits. One that runs past the end of the input
    stands for all the bytes there are, so only the last field can have it.
   */
  predicate NestedFits(b: Body, last: bool)
  {
    && b.Block? && IsVarint(b.length)
    && var n := Denotes(b.length) % TWO_64;
       n < TWO_31 && (n == |b.payload| || (last && |b.payload| < n))
  }

  predicate Placed<M>(g: Grammar<M>, t: u32, b: Body, last: bool)
  {
    if t in g.nested then NestedFits(b, last) else Fits(t, b, g.depth)
  }

  predicate Sequence<M>(g: Grammar<M>, fs: Fields)
  {
    match fs
    case Nothing => true
    case Field(k, b, more) =>
      && IsKey(k) && Placed(g, KeyOf(k), b, more.Nothing?) && g.ok(KeyOf(k), b)
      && Sequence(g, more)
  }

  function Folded<M>(g: Grammar<M>, m: M, fs: Fields): M
  {
    match fs
    case Nothing => m
    case Field(k, b, more) => Folded(g, g.put(m, KeyOf(k), b), more)
  }

  type Switch<!M> = (M, u32, seq<byte>) -> Turn<M>

  ghost predicate Taken<M>(f: Switch<M>, g: Grammar<M>, m: M, t: u32, b: Body, s: seq<byte>)
  {
    8 <= t && Placed(g, t, b, s == []) && g.ok(t, b) ==> f(m, t, BodyBytes(b) + s) == Next(g.put(m, t, b), s)
  }

  ghost predicate Was<M>(f: Switch<M>, g: Grammar<M>, m: M, t: u32, s: seq<byte>, b: Body)
    requires f(m, t, s).Next?
  {
    var rest := f(m, t, s).rest;
    && 8 <= t && Placed(g, t, b, rest == []) && g.ok(t, b)
    && s == BodyBytes(b) + rest && f(m, t, s).msg == g.put(m, t, b)
  }

  ghost predicate TakesAll<M(!new)>(f: Switch<M>, g: Grammar<M>)
  {
    forall m: M, t: u32, b: Body, s: seq<byte> :: Taken(f, g, m, t, b, s)
  }

  /** The switch takes the bodies of the grammar and no others. */
  ghost predicate Follows<M(!new)>(f: Switch<M>, g: Grammar<M>)
  {
    && TakesAll(f, g)
    && (forall m: M, t: u32, s: seq<byte> :: f(m, t, s).Next? ==> exists b :: Was(f, g, m, t, s, b))
  }

  lemma FieldParses<M>(f: Switch<M>, g: Grammar<M>, m: M, k: seq<byte>, b: Body, s: seq<byte>)
    requires Taken(f, g, m, KeyOf(k), b, s) && IsKey(k) && Placed(g, KeyOf(k), b, s == []) && g.ok(KeyOf(k), b)
    ensures ParseLoop(f, m, k + (BodyBytes(b) + s)) == ParseLoop(f, g.put(m, KeyOf(k), b), s)
  {
    KeyReads(k, BodyBytes(b) + s);
  }

  lemma OnlyNothingIsEmpty<M>(g: Grammar<M>, fs: Fields)
    requires Sequence(g, fs)
    ensures FieldsBytes(fs) == [] <==> fs.Nothing?
  {
  }

  lemma {:induction false} SequenceParses<M(!new)>(f: Switch<M>, g: Grammar<M>, m: M, fs: Fields)
    requires TakesAll(f, g) && Sequence(g, fs)
    ensures ParseLoop(f, m, FieldsBytes(fs)) == Parsed(true, Folded(g, m, fs))
    decreases fs
  {
    match fs
    case Nothing =>
    case Field(k, b, more) =>
      OnlyNothingIsEmpty(g, more);
      assert Taken(f, g, m, KeyOf(k), b, FieldsBytes(more));
      FieldParses(f, g, m, k, b, FieldsBytes(more));
      SequenceParses(f, g, g.put(m, KeyOf(k), b), more);
      FieldInFront(k, b, more, []);
      assert FieldsBytes(fs) + [] == FieldsBytes(fs) && FieldsBytes(more) + [] == FieldsBytes(more);
  }

  lemma {:induction false} ParsedWas<M(!new)>(f: Switch<M>, g: Grammar<M>, m: M, s: seq<byte>) returns (fs: Fields)
    requires Follows(f, g) && ParseLoop(f, m, s).ok
    ensures Sequence(g, fs) && s == FieldsBytes(fs) && ParseLoop(f, m, s).msg == Folded(g, m, fs)
    ensures s == [] <==> fs.Nothing?
    decreases |s|
  {
    if s == [] {
      fs := Nothing;
    } else {
      var k := KeyWas(s);
      var rest := ReadTag(s).rest;
      var turn := f(m, KeyOf(k), rest);
      var b :| Was(f, g, m, KeyOf(k), rest, b);
      var more := ParsedWas(f, g, turn.msg, turn.rest);
      fs := Field(k, b, more);
      assert s == k + BodyBytes(b) + FieldsBytes(more);
    }
  }

  ghost predicate Spelled<M>(g: Grammar<M>, fs: Fields, s: seq<byte>) { Sequence(g, fs) && s == FieldsBytes(fs) }

  lemma ParseIff<M(!new)>(f: Switch<M>, g: Grammar<M>, m: M, s: seq<byte>, m': M)
    requires Follows(f, g)
    ensures ParseLoop(f, m, s) == Parsed(true, m') <==> exists fs :: Spelled(g, fs, s) && m' == Folded(g, m, fs)
  {
    if ParseLoop(f, m, s) == Parsed(true, m') {
      var fs := ParsedWas(f, g, m, s);
      assert Spelled(g, fs, s);
    }
    forall fs | Spelled(g, fs, s) ensures ParseLoop(f, m, s) == Parsed(true, Folded(g, m, fs)) {
      SequenceParses(f, g, m, fs);
    }
  }

  // ---------------------------------------------------------------- the readers

  predicate IsBlock(b: Body) { b.Block? && Fits(10, b, 0) }

  lemma TextTaken(utf8: Utf8, before: Text, b: Body, s: seq<byte>)
    requires IsBlock(b)
    ensures ReadText(utf8, before, BodyBytes(b) + s) == FieldRead(utf8(b.payload), b.payload, s)
  {
    BlockReads(b.length, b.payload, s);
  }

  lemma TextWas(utf8: Utf8, before: Text, s: seq<byte>) returns (b: Body)
    requires ReadText(utf8, before, s).ok
    ensures var r := ReadText(utf8, before, s);
            IsBlock(b) && s == BodyBytes(b) + r.rest && r.value == b.payload && utf8(b.payload)
  {
    b := BlockWas(s);
  }

  lemma IntTaken(before: i32, e: seq<byte>, s: seq<byte>)
    requires IsVarint(e)
    ensures ReadInt32(before, e + s) == FieldRead(true, ToI32(Denotes(e) % TWO_32), s)
  {
    ChainReads(e, s, 10);
  }

  lemma IntWas(before: i32, s: seq<byte>) returns (e: seq<byte>)
    requires ReadInt32(before, s).ok
    ensures var r := ReadInt32(before, s);
            IsVarint(e) && s == e + r.rest && r.value == ToI32(Denotes(e) % TWO_32)
  {
    e := ChainWas(s, 10);
  }

  lemma WordTaken(before: u32, e: seq<byte>, s: seq<byte>)
    requires |e| == 4
    ensures ReadFloat(before, e + s) == FieldRead(true, Word(e), s)
  {
    assert (e + s)[4..] == s;
  }

  lemma WordWas(before: u32, s: seq<byte>)
    requires ReadFloat(before, s).ok
    ensures var r := ReadFloat(before, s); 4 <= |s| && r.value == Word(s[..4]) && s == s[..4] + r.rest
  {
  }

  lemma NestedTaken<M>(f: Switch<M>, empty: M, b: Body, s: seq<byte>)
    requires NestedFits(b, s == [])
    ensures var p := ParseLoop(f, empty, b.payload);
            ReadNested(f, empty, BodyBytes(b) + s) == FieldRead(p.ok, p.msg, s)
  {
    BlockReads(b.length, b.payload, s);
  }

  lemma NestedWas<M>(f: Switch<M>, empty: M, s: seq<byte>) returns (b: Body)
    requires ReadNested(f, empty, s).ok
    ensures var r := ReadNested(f, empty, s);
            && NestedFits(b, r.rest == []) && s == BodyBytes(b) + r.rest
            && ParseLoop(f, empty, b.payload) == Parsed(true, r.value)
  {
    var l := ChainWas(s, 10);
    var r := ReadVarint64(s);
    var k := Min(r.value, |r.rest|);
    b := Block(l, r.rest[..k]);
    SplitBehind(l, r.rest, k);
  }

  function ParsePhone(utf8: Utf8, s: seq<byte>): Parsed<Phone> { ParseLoop(PhoneTurn(utf8), NO_PHONE, s) }

  function ParseUser(utf8: Utf8, s: seq<byte>): Parsed<User> { ParseLoop(UserTurn(utf8), NO_USER, s) }

  // ---------------------------------------------------------------- members of a message

  /** The payload of the last field with this tag. */
  function LastText(fs: Fields, tag: u32, before: Text): Text
  {
    match fs
    case Nothing => before
    case Field(k, b, more) => LastText(more, tag, if KeyOf(k) == tag && b.Block? then b.payload else before)
  }

  /** The number of the last field with this tag, cut to 32 bits in two's complement. */
  function LastInt(fs: Fields, tag: u32, before: i32): i32
  {
    match fs
    case Nothing => before
    case Field(k, b, more) =>
      LastInt(more, tag, if KeyOf(k) == tag && b.Varint? then ToI32(Denotes(b.bytes) % TWO_32) else before)
  }

  function LastWord(fs: Fields, tag: u32, before: u32): u32
  {
    match fs
    case Nothing => before
    case Field(k, b, more) =>
      LastWord(more, tag, if KeyOf(k) == tag && b.Fixed32? && |b.bytes| == 4 then Word(b.bytes) else before)
  }

  /** The nested messages of the fields with this tag, in order. */
  function Listed<N>(parse: Text -> Parsed<N>, fs: Fields, tag: u32): seq<N>
  {
    match fs
    case Nothing => []
    case Field(k, b, more) =>
      (if KeyOf(k) == tag && b.Block? then [parse(b.payload).msg] else []) + Listed(parse, more, tag)
  }

  lemma ListedFront<N>(parse: Text -> Parsed<N>, k: seq<byte>, b: Body, more: Fields, tag: u32, before: seq<N>)
    ensures before + Listed(parse, Field(k, b, more), tag) ==
            (if KeyOf(k) == tag && b.Block? then before + [parse(b.payload).msg] else before) + Listed(parse, more, tag)
  {
  }

  // ---------------------------------------------------------------- CmdType

  predicate CmdTypeOk(utf8: Utf8, t: u32, b: Body) { t in {10, 26, 34} && b.Block? ==> utf8(b.payload) }

  function CmdTypePut(m: CmdType, t: u32, b: Body): CmdType
  {
    if t == 10 && b.Block? then m.(name := b.payload)
    else if t == 16 && b.Varint? then m.(size := ToI32(Denotes(b.bytes) % TWO_32))
    else if t == 26 && b.Block? then m.(fromip := b.payload)
    else if t == 34 && b.Block? then m.(toip := b.payload)
    else m
  }

  function CmdTypeGrammar(utf8: Utf8): Grammar<CmdType>
  {
    Grammar({}, 100, (t: u32, b: Body) => CmdTypeOk(utf8, t, b),
            (m: CmdType, t: u32, b: Body) => CmdTypePut(m, t, b))
  }

  lemma CmdTypeSwitch(utf8: Utf8, m: CmdType, t: u32, s: seq<byte>)
    ensures var turn := CmdTypeTurn(utf8)(m, t, s);
            && (t == 10 ==> var r := ReadText(utf8, m.name, s); turn == Turned(r.ok, m.(name := r.value), r.rest))
            && (t == 16 ==> var r := ReadInt32(m.size, s); turn == Turned(r.ok, m.(size := r.value), r.rest))
            && (t == 26 ==> var r := ReadText(utf8, m.fromip, s); turn == Turned(r.ok, m.(fromip := r.value), r.rest))
            && (t == 34 ==> var r := ReadText(utf8, m.toip, s); turn == Turned(r.ok, m.(toip := r.value), r.rest))
            && (t !in {10, 16, 26, 34} ==> turn == PastField(m, SkipField(t, s, 100)))
  {
  }

  lemma CmdTypeTakes(utf8: Utf8, m: CmdType, t: u32, b: Body, s: seq<byte>)
    ensures Taken(CmdTypeTurn(utf8), CmdTypeGrammar(utf8), m, t, b, s)
  {
    var g := CmdTypeGrammar(utf8);
    CmdTypeSwitch(utf8, m, t, BodyBytes(b) + s);
    if 8 <= t && Placed(g, t, b, s == []) && g.ok(t, b) {
      if t == 10 {
        TextTaken(utf8, m.name, b, s);
      } else if t == 16 {
        IntTaken(m.size, b.bytes, s);
      } else if t == 26 {
        TextTaken(utf8, m.fromip, b, s);
      } else if t == 34 {
        TextTaken(utf8, m.toip, b, s);
      } else {
        SkipsBody(t, b, 100, s);
      }
    }
  }

  lemma CmdTypeTextWas(utf8: Utf8, m: CmdType, t: u32, s: seq<byte>) returns (b: Body)
    requires t in {10, 26, 34} && CmdTypeTurn(utf8)(m, t, s).Next?
    ensures Was(CmdTypeTurn(utf8), CmdTypeGrammar(utf8), m, t, s, b)
  {
    CmdTypeSwitch(utf8, m, t, s);
    b := TextWas(utf8, if t == 10 then m.name else if t == 26 then m.fromip else m.toip, s);
  }

  lemma CmdTypeWas(utf8: Utf8, m: CmdType, t: u32, s: seq<byte>) returns (b: Body)
    requires CmdTypeTurn(utf8)(m, t, s).Next?
    ensures Was(CmdTypeTurn(utf8), CmdTypeGrammar(utf8), m, t, s, b)
  {
    CmdTypeSwitch(utf8, m, t, s);
    if t == 10 || t == 26 || t == 34 {
      b := CmdTypeTextWas(utf8, m, t, s);
    } else if t == 16 {
      var e := IntWas(m.size, s);
      b := Varint(e);
    } else {
      b := BodyWas(t, s, 100);
    }
  }

  lemma CmdTypeFollows(utf8: Utf8)
    ensures Follows(CmdTypeTurn(utf8), CmdTypeGrammar(utf8))
  {
    var f, g := CmdTypeTurn(utf8), CmdTypeGrammar(utf8);
    forall m: CmdType, t: u32, b: Body, s: seq<byte> ensures Taken(f, g, m, t, b, s) { CmdTypeTakes(utf8, m, t, b, s); }
    forall m: CmdType, t: u32, s: seq<byte> | f(m, t, s).Next? ensures exists b :: Was(f, g, m, t, s, b) {
      var b := CmdTypeWas(utf8, m, t, s);
    }
  }

  lemma {:induction false} CmdTypeFolds(utf8: Utf8, m: CmdType, fs: Fields)
    ensures Folded(CmdTypeGrammar(utf8), m, fs) ==
            CmdType(LastText(fs, 10, m.name), LastInt(fs, 16, m.size), LastText(fs, 26, m.fromip),
                    LastText(fs, 34, m.toip))
    decreases fs
  {
    if fs.Field? {
      CmdTypeFolds(utf8, CmdTypeGrammar(utf8).put(m, KeyOf(fs.key), fs.body), fs.more);
    }
  }

  ghost predicate SpellsCmdType(utf8: Utf8, fs: Fields, s: seq<byte>, x: CmdType)
  {
    && Spelled(CmdTypeGrammar(utf8), fs, s)
    && x == CmdType(LastText(fs, 10, []), LastInt(fs, 16, 0), LastText(fs, 26, []), LastText(fs, 34, []))
  }

  /** A CmdType parses iff it is a sequence of such fields; each member has the value of its last field. */
  lemma CmdTypeIff(utf8: Utf8, s: seq<byte>, x: CmdType)
    ensures ParseCmdType(utf8, s) == Parsed(true, x) <==> exists fs :: SpellsCmdType(utf8, fs, s, x)
  {
    CmdTypeFollows(utf8);
    ParseIff(CmdTypeTurn(utf8), CmdTypeGrammar(utf8), NO_CMD, s, x);
    forall fs ensures Spelled(CmdTypeGrammar(utf8), fs, s) && x == Folded(CmdTypeGrammar(utf8), NO_CMD, fs) <==>
                      SpellsCmdType(utf8, fs, s, x) {
      CmdTypeFolds(utf8, NO_CMD, fs);
    }
  }

  // ---------------------------------------------------------------- ePhoneNumber

  predicate PhoneOk(utf8: Utf8, t: u32, b: Body)
  {
    t == 10 && b.Block? ==> utf8(b.payload)
  }

  function PhonePut(m: Phone, t: u32, b: Body): Phone
  {
    if t == 10 && b.Block? then m.(number := b.payload)
    else if t == 16 && b.Varint? then m.(kind := ToI32(Denotes(b.bytes) % TWO_32))
    else m
  }

  function PhoneGrammar(utf8: Utf8): Grammar<Phone>
  {
    Grammar({}, 98, (t: u32, b: Body) => PhoneOk(utf8, t, b),
            (m: Phone, t: u32, b: Body) => PhonePut(m, t, b))
  }

  lemma PhoneSwitch(utf8: Utf8, m: Phone, t: u32, s: seq<byte>)
    ensures var turn := PhoneTurn(utf8)(m, t, s);
            && (t == 10 ==> var r := ReadText(utf8, m.number, s); turn == Turned(r.ok, m.(number := r.value), r.rest))
            && (t == 16 ==> var r := ReadInt32(m.kind, s); turn == Turned(r.ok, m.(kind := r.value), r.rest))
            && (t !in {10, 16} ==> turn == PastField(m, SkipField(t, s, 98)))
  {
  }

  lemma PhoneTakes(utf8: Utf8, m: Phone, t: u32, b: Body, s: seq<byte>)
    ensures Taken(PhoneTurn(utf8), PhoneGrammar(utf8), m, t, b, s)
  {
    var g := PhoneGrammar(utf8);
    PhoneSwitch(utf8, m, t, BodyBytes(b) + s);
    if 8 <= t && Placed(g, t, b, s == []) && g.ok(t, b) {
      if t == 10 {
        TextTaken(utf8, m.number, b, s);
      } else if t == 16 {
        IntTaken(m.kind, b.bytes, s);
      } else {
        SkipsBody(t, b, 98, s);
      }
    }
  }

  lemma PhoneWas(utf8: Utf8, m: Phone, t: u32, s: seq<byte>) returns (b: Body)
    requires PhoneTurn(utf8)(m, t, s).Next?
    ensures Was(PhoneTurn(utf8), PhoneGrammar(utf8), m, t, s, b)
  {
    PhoneSwitch(utf8, m, t, s);
    if t == 10 {
      b := TextWas(utf8, m.number, s);
    } else if t == 16 {
      var e := IntWas(m.kind, s);
      b := Varint(e);
    } else {
      b := BodyWas(t, s, 98);
    }
  }

  lemma PhoneFollows(utf8: Utf8)
    ensures Follows(PhoneTurn(utf8), PhoneGrammar(utf8))
  {
    var f, g := PhoneTurn(utf8), PhoneGrammar(utf8);
    forall m: Phone, t: u32, b: Body, s: seq<byte> ensures Taken(f, g, m, t, b, s) { PhoneTakes(utf8, m, t, b, s); }
    forall m: Phone, t: u32, s: seq<byte> | f(m, t, s).Next? ensures exists b :: Was(f, g, m, t, s, b) {
      var b := PhoneWas(utf8, m, t, s);
    }
  }

  lemma {:induction false} PhoneFolds(utf8: Utf8, m: Phone, fs: Fields)
    ensures Folded(PhoneGrammar(utf8), m, fs) ==
            Phone(LastText(fs, 10, m.number), LastInt(fs, 16, m.kind))
    decreases fs
  {
    if fs.Field? {
      PhoneFolds(utf8, PhoneGrammar(utf8).put(m, KeyOf(fs.key), fs.body), fs.more);
    }
  }

  ghost predicate SpellsPhone(utf8: Utf8, fs: Fields, s: seq<byte>, x: Phone)
  {
    && Spelled(PhoneGrammar(utf8), fs, s)
    && x == Phone(LastText(fs, 10, []), LastInt(fs, 16, 0))
  }

  lemma PhoneIff(utf8: Utf8, s: seq<byte>, x: Phone)
    ensures ParsePhone(utf8, s) == Parsed(true, x) <==> exists fs :: SpellsPhone(utf8, fs, s, x)
  {
    PhoneFollows(utf8);
    ParseIff(PhoneTurn(utf8), PhoneGrammar(utf8), NO_PHONE, s, x);
    forall fs ensures Spelled(PhoneGrammar(utf8), fs, s) && x == Folded(PhoneGrammar(utf8), NO_PHONE, fs) <==>
                      SpellsPhone(utf8, fs, s, x) {
      PhoneFolds(utf8, NO_PHONE, fs);
    }
  }

  // ---------------------------------------------------------------- reqMove

  function MovePut(m: Move, t: u32, b: Body): Move
  {
    if t == 13 && b.Fixed32? && |b.bytes| == 4 then m.(forward := Word(b.bytes))
    else if t == 21 && b.Fixed32? && |b.bytes| == 4 then m.(angle := Word(b.bytes))
    else m
  }

  function MoveGrammar(): Grammar<Move>
  {
    Grammar({}, 100, (t: u32, b: Body) => true,
            (m: Move, t: u32, b: Body) => MovePut(m, t, b))
  }

  lemma MoveSwitch(m: Move, t: u32, s: seq<byte>)
    ensures var turn := MoveTurn()(m, t, s);
            && (t == 13 ==> var r := ReadFloat(m.forward, s); turn == Turned(r.ok, m.(forward := r.value), r.rest))
            && (t == 21 ==> var r := ReadFloat(m.angle, s); turn == Turned(r.ok, m.(angle := r.value), r.rest))
            && (t !in {13, 21} ==> turn == PastField(m, SkipField(t, s, 100)))
  {
  }

  lemma MoveTakes(m: Move, t: u32, b: Body, s: seq<byte>)
    ensures Taken(MoveTurn(), MoveGrammar(), m, t, b, s)
  {
    var g := MoveGrammar();
    MoveSwitch(m, t, BodyBytes(b) + s);
    if 8 <= t && Placed(g, t, b, s == []) && g.ok(t, b) {
      if t == 13 {
        WordTaken(m.forward, b.bytes, s);
      } else if t == 21 {
        WordTaken(m.angle, b.bytes, s);
      } else {
        SkipsBody(t, b, 100, s);
      }
    }
  }

  lemma MoveWas(m: Move, t: u32, s: seq<byte>) returns (b: Body)
    requires MoveTurn()(m, t, s).Next?
    ensures Was(MoveTurn(), MoveGrammar(), m, t, s, b)
  {
    MoveSwitch(m, t, s);
    if t == 13 {
      WordWas(m.forward, s);
      b := Fixed32(s[..4]);
    } else if t == 21 {
      WordWas(m.angle, s);
      b := Fixed32(s[..4]);
    } else {
      b := BodyWas(t, s, 100);
    }
  }

  lemma MoveFollows()
    ensures Follows(MoveTurn(), MoveGrammar())
  {
    var f, g := MoveTurn(), MoveGrammar();
    forall m: Move, t: u32, b: Body, s: seq<byte> ensures Taken(f, g, m, t, b, s) { MoveTakes(m, t, b, s); }
    forall m: Move, t: u32, s: seq<byte> | f(m, t, s).Next? ensures exists b :: Was(f, g, m, t, s, b) {
      var b := MoveWas(m, t, s);
    }
  }

  lemma {:induction false} MoveFolds(m: Move, fs: Fields)
    ensures Folded(MoveGrammar(), m, fs) ==
            Move(LastWord(fs, 13, m.forward), LastWord(fs, 21, m.angle))
    decreases fs
  {
    if fs.Field? {
      MoveFolds(MoveGrammar().put(m, KeyOf(fs.key), fs.body), fs.more);
    }
  }

  ghost predicate SpellsMove(fs: Fields, s: seq<byte>, x: Move)
  {
    && Spelled(MoveGrammar(), fs, s)
    && x == Move(LastWord(fs, 13, 0), LastWord(fs, 21, 0))
  }

  /** A reqMove parses iff it is a sequence of such fields; each member has the bits of its last field. */
  lemma MoveIff(s: seq<byte>, x: Move)
    ensures ParseMove(s) == Parsed(true, x) <==> exists fs :: SpellsMove(fs, s, x)
  {
    MoveFollows();
    ParseIff(MoveTurn(), MoveGrammar(), NO_MOVE, s, x);
    forall fs ensures Spelled(MoveGrammar(), fs, s) && x == Folded(MoveGrammar(), NO_MOVE, fs) <==>
                      SpellsMove(fs, s, x) {
      MoveFolds(NO_MOVE, fs);
    }
  }

  // ---------------------------------------------------------------- sUser

  predicate UserOk(utf8: Utf8, t: u32, b: Body)
  {
    && (t in {10, 26} && b.Block? ==> utf8(b.payload))
    && (t == 34 && b.Block? ==> ParsePhone(utf8, b.payload).ok)
  }

  function UserPut(utf8: Utf8, m: User, t: u32, b: Body): User
  {
    if t == 10 && b.Block? then m.(name := b.payload)
    else if t == 16 && b.Varint? then m.(id := ToI32(Denotes(b.bytes) % TWO_32))
    else if t == 26 && b.Block? then m.(email := b.payload)
    else if t == 34 && b.Block? then m.(phones := m.phones + [ParsePhone(utf8, b.payload).msg])
    else m
  }

  function UserGrammar(utf8: Utf8): Grammar<User>
  {
    Grammar({34}, 99, (t: u32, b: Body) => UserOk(utf8, t, b),
            (m: User, t: u32, b: Body) => UserPut(utf8, m, t, b))
  }

  lemma UserSwitch(utf8: Utf8, m: User, t: u32, s: seq<byte>)
    ensures var turn := UserTurn(utf8)(m, t, s);
            && (t == 10 ==> var r := ReadText(utf8, m.name, s); turn == Turned(r.ok, m.(name := r.value), r.rest))
            && (t == 16 ==> var r := ReadInt32(m.id, s); turn == Turned(r.ok, m.(id := r.value), r.rest))
            && (t == 26 ==> var r := ReadText(utf8, m.email, s); turn == Turned(r.ok, m.(email := r.value), r.rest))
            && (t == 34 ==>
                  var r := ReadNested(PhoneTurn(utf8), NO_PHONE, s);
                  turn == Turned(r.ok, m.(phones := m.phones + [r.value]), r.rest))
            && (t !in {10, 16, 26, 34} ==> turn == PastField(m, SkipField(t, s, 99)))
  {
  }

  lemma UserTakes(utf8: Utf8, m: User, t: u32, b: Body, s: seq<byte>)
    ensures Taken(UserTurn(utf8), UserGrammar(utf8), m, t, b, s)
  {
    var g := UserGrammar(utf8);
    UserSwitch(utf8, m, t, BodyBytes(b) + s);
    if 8 <= t && Placed(g, t, b, s == []) && g.ok(t, b) {
      if t == 10 {
        TextTaken(utf8, m.name, b, s);
      } else if t == 16 {
        IntTaken(m.id, b.bytes, s);
      } else if t == 26 {
        TextTaken(utf8, m.email, b, s);
      } else if t == 34 {
        NestedTaken(PhoneTurn(utf8), NO_PHONE, b, s);
      } else {
        SkipsBody(t, b, 99, s);
      }
    }
  }

  lemma UserPhoneWas(utf8: Utf8, m: User, s: seq<byte>) returns (b: Body)
    requires UserTurn(utf8)(m, 34, s).Next?
    ensures Was(UserTurn(utf8), UserGrammar(utf8), m, 34, s, b)
  {
    UserSwitch(utf8, m, 34, s);
    b := NestedWas(PhoneTurn(utf8), NO_PHONE, s);
  }

  lemma UserTextWas(utf8: Utf8, m: User, t: u32, s: seq<byte>) returns (b: Body)
    requires t in {10, 26} && UserTurn(utf8)(m, t, s).Next?
    ensures Was(UserTurn(utf8), UserGrammar(utf8), m, t, s, b)
  {
    UserSwitch(utf8, m, t, s);
    b := TextWas(utf8, if t == 10 then m.name else m.email, s);
  }

  lemma UserWas(utf8: Utf8, m: User, t: u32, s: seq<byte>) returns (b: Body)
    requires UserTurn(utf8)(m, t, s).Next?
    ensures Was(UserTurn(utf8), UserGrammar(utf8), m, t, s, b)
  {
    UserSwitch(utf8, m, t, s);
    if t == 10 || t == 26 {
      b := UserTextWas(utf8, m, t, s);
    } else if t == 16 {
      var e := IntWas(m.id, s);
      b := Varint(e);
    } else if t == 34 {
      b := UserPhoneWas(utf8, m, s);
    } else {
      b := BodyWas(t, s, 99);
    }
  }

  lemma UserFollows(utf8: Utf8)
    ensures Follows(UserTurn(utf8), UserGrammar(utf8))
  {
    var f, g := UserTurn(utf8), UserGrammar(utf8);
    forall m: User, t: u32, b: Body, s: seq<byte> ensures Taken(f, g, m, t, b, s) { UserTakes(utf8, m, t, b, s); }
    forall m: User, t: u32, s: seq<byte> | f(m, t, s).Next? ensures exists b :: Was(f, g, m, t, s, b) {
      var b := UserWas(utf8, m, t, s);
    }
  }

  lemma {:induction false} UserFolds(utf8: Utf8, m: User, fs: Fields)
    ensures Folded(UserGrammar(utf8), m, fs) ==
            User(LastText(fs, 10, m.name), LastInt(fs, 16, m.id), LastText(fs, 26, m.email),
                 m.phones + Listed(p => ParsePhone(utf8, p), fs, 34))
    decreases fs
  {
    if fs.Field? {
      ListedFront(p => ParsePhone(utf8, p), fs.key, fs.body, fs.more, 34, m.phones);
      UserFolds(utf8, UserGrammar(utf8).put(m, KeyOf(fs.key), fs.body), fs.more);
    }
  }

  ghost predicate SpellsUser(utf8: Utf8, fs: Fields, s: seq<byte>, x: User)
  {
    && Spelled(UserGrammar(utf8), fs, s)
    && x == User(LastText(fs, 10, []), LastInt(fs, 16, 0), LastText(fs, 26, []),
                 Listed(p => ParsePhone(utf8, p), fs, 34))
  }

  /** The phones are those of the fields with number 4, in order, each read from its payload alone. */
  lemma UserIff(utf8: Utf8, s: seq<byte>, x: User)
    ensures ParseUser(utf8, s) == Parsed(true, x) <==> exists fs :: SpellsUser(utf8, fs, s, x)
  {
    UserFollows(utf8);
    ParseIff(UserTurn(utf8), UserGrammar(utf8), NO_USER, s, x);
    forall fs ensures Spelled(UserGrammar(utf8), fs, s) && x == Folded(UserGrammar(utf8), NO_USER, fs) <==>
                      SpellsUser(utf8, fs, s, x) {
      UserFolds(utf8, NO_USER, fs);
    }
  }

  // ---------------------------------------------------------------- reqSignin

  predicate SigninOk(utf8: Utf8, t: u32, b: Body)
  {
    t == 10 && b.Block? ==> ParseUser(utf8, b.payload).ok
  }

  function SigninPut(utf8: Utf8, m: Signin, t: u32, b: Body): Signin
  {
    if t == 10 && b.Block? then m.(users := m.users + [ParseUser(utf8, b.payload).msg])
    else m
  }

  function SigninGrammar(utf8: Utf8): Grammar<Signin>
  {
    Grammar({10}, 100, (t: u32, b: Body) => SigninOk(utf8, t, b),
            (m: Signin, t: u32, b: Body) => SigninPut(utf8, m, t, b))
  }

  lemma SigninSwitch(utf8: Utf8, m: Signin, t: u32, s: seq<byte>)
    ensures var turn := SigninTurn(utf8)(m, t, s);
            && (t == 10 ==>
                  var r := ReadNested(UserTurn(utf8), NO_USER, s);
                  turn == Turned(r.ok, m.(users := m.users + [r.value]), r.rest))
            && (t !in {10} ==> turn == PastField(m, SkipField(t, s, 100)))
  {
  }

  lemma SigninTakes(utf8: Utf8, m: Signin, t: u32, b: Body, s: seq<byte>)
    ensures Taken(SigninTurn(utf8), SigninGrammar(utf8), m, t, b, s)
  {
    var g := SigninGrammar(utf8);
    SigninSwitch(utf8, m, t, BodyBytes(b) + s);
    if 8 <= t && Placed(g, t, b, s == []) && g.ok(t, b) {
      if t == 10 {
        NestedTaken(UserTurn(utf8), NO_USER, b, s);
      } else {
        SkipsBody(t, b, 100, s);
      }
    }
  }

  lemma SigninWas(utf8: Utf8, m: Signin, t: u32, s: seq<byte>) returns (b: Body)
    requires SigninTurn(utf8)(m, t, s).Next?
    ensures Was(SigninTurn(utf8), SigninGrammar(utf8), m, t, s, b)
  {
    SigninSwitch(utf8, m, t, s);
    if t == 10 {
      b := NestedWas(UserTurn(utf8), NO_USER, s);
    } else {
      b := BodyWas(t, s, 100);
    }
  }

  lemma SigninFollows(utf8: Utf8)
    ensures Follows(SigninTurn(utf8), SigninGrammar(utf8))
  {
    var f, g := SigninTurn(utf8), SigninGrammar(utf8);
    forall m: Signin, t: u32, b: Body, s: seq<byte> ensures Taken(f, g, m, t, b, s) { SigninTakes(utf8, m, t, b, s); }
    forall m: Signin, t: u32, s: seq<byte> | f(m, t, s).Next? ensures exists b :: Was(f, g, m, t, s, b) {
      var b := SigninWas(utf8, m, t, s);
    }
  }

  lemma {:induction false} SigninFolds(utf8: Utf8, m: Signin, fs: Fields)
    ensures Folded(SigninGrammar(utf8), m, fs) ==
            Signin(m.users + Listed(p => ParseUser(utf8, p), fs, 10))
    decreases fs
  {
    if fs.Field? {
      ListedFront(p => ParseUser(utf8, p), fs.key, fs.body, fs.more, 10, m.users);
      SigninFolds(utf8, SigninGrammar(utf8).put(m, KeyOf(fs.key), fs.body), fs.more);
    }
  }

  ghost predicate SpellsSignin(utf8: Utf8, fs: Fields, s: seq<byte>, x: Signin)
  {
    && Spelled(SigninGrammar(utf8), fs, s)
    && x == Signin(Listed(p => ParseUser(utf8, p), fs, 10))
  }

  /** A reqSignin parses iff it is a sequence of such fields; its users are those of field number 1, in order. */
  lemma SigninIff(utf8: Utf8, s: seq<byte>, x: Signin)
    ensures ParseSignin(utf8, s) == Parsed(true, x) <==> exists fs :: SpellsSignin(utf8, fs, s, x)
  {
    SigninFollows(utf8);
    ParseIff(SigninTurn(utf8), SigninGrammar(utf8), NO_SIGNIN, s, x);
    forall fs ensures Spelled(SigninGrammar(utf8), fs, s) && x == Folded(SigninGrammar(utf8), NO_SIGNIN, fs) <==>
                      SpellsSignin(utf8, fs, s, x) {
      SigninFolds(utf8, NO_SIGNIN, fs);
    }
  }
}
