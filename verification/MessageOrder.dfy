/**
  What the serializers write: the fields in the order of their numbers, none twice unless it is
  repeated, none with a default value, and every number in its shortest form.
 */
module MessageOrder {
  import opened Bytes
  import opened Wire
  import opened WireFields
  import opened Messages
  import opened MessageGrammar

  // ---------------------------------------------------------------- canonical sequences

  /** Keys go up; only the repeated one may come again. */
  predicate Ascending(fs: Fields, repeated: int)
  {
    match fs
    case Nothing => true
    case Field(k, _, more) =>
      && (more.Field? ==> KeyOf(k) < KeyOf(more.key) || KeyOf(k) == KeyOf(more.key) == repeated)
      && Ascending(more, repeated)
  }

  /** No byte could be left out: a varint does not end in a zero byte, unless it is zero itself. */
  predicate Shortest(e: seq<byte>) { |e| > 1 ==> e[|e| - 1] != 0 }

  /** The body is not that of a default value, which is written by leaving the field out. */
  predicate Present(b: Body)
  {
    match b
    case Varint(e) => Denotes(e) != 0 && Shortest(e)
    case Block(l, p) => p != [] && Shortest(l)
    case Fixed32(e) => |e| == 4 && Word(e) != 0 && Word(e) != 0x8000_0000
    case _ => false
  }

  /** One-byte keys, and every body present; a nested message is written even when it is empty. */
  predicate Canonical(fs: Fields, repeated: int)
  {
    match fs
    case Nothing => true
    case Field(k, b, more) =>
      && |k| == 1 && (Present(b) || (KeyOf(k) == repeated && b.Block? && Shortest(b.length)))
      && Canonical(more, repeated)
  }

  ghost predicate Written<M>(g: Grammar<M>, fs: Fields, s: seq<byte>, repeated: int)
  {
    Spelled(g, fs, s) && Ascending(fs, repeated) && Canonical(fs, repeated)
  }

  // ---------------------------------------------------------------- the pieces

  lemma {:induction false} EncodedIsShortest(n: nat)
    ensures Shortest(EncodeVarint(n)) && (n != 0 ==> EncodeVarint(n)[|EncodeVarint(n)| - 1] != 0)
  {
    if n >= 128 {
      EncodedIsShortest(n / 128);
    }
  }

  lemma EncodedDenotes(n: u64)
    ensures IsVarint(EncodeVarint(n)) && Denotes(EncodeVarint(n)) == n && Shortest(EncodeVarint(n))
  {
    TenBytesSuffice();
    DecodeEncoded(n, 10, []);
    assert EncodeVarint(n) + [] == EncodeVarint(n);
    var e := ChainWas(EncodeVarint(n), 10);
    assert e == EncodeVarint(n);
    EncodedIsShortest(n);
  }

  lemma KeyByte(k: byte)
    requires 8 <= k < 128
    ensures IsKey([k]) && KeyOf([k]) == k
  {
    assert [k][..0] == [];
    assert Denotes([k]) == Pow128(0) * (k % 128);
  }

  function TextPut(number: nat, text: Text, more: Fields): Fields
    requires 1 <= number < 16
  {
    if text == [] then more else Field([number * 8 + 2], Block(EncodeVarint(|text|), text), more)
  }

  function IntPut(number: nat, v: i32, more: Fields): Fields
    requires 1 <= number < 16
  {
    if v == 0 then more else Field([number * 8], Varint(EncodeVarint(SignExtended(v))), more)
  }

  function WordPut(number: nat, bits: u32, more: Fields): Fields
    requires 1 <= number < 16
  {
    if IsZeroFloat(bits) then more else Field([number * 8 + 5], Fixed32(LittleEndian32(bits)), more)
  }

  function NestedPut(number: nat, p: seq<byte>, more: Fields): (r: Fields)
    requires 1 <= number < 16
    ensures r.Field?
  {
    Field([number * 8 + 2], Block(EncodeVarint(|p|), p), more)
  }

  /** The fields from here on have numbers from `least` on, and spell these bytes. */
  ghost predicate Tail<M>(g: Grammar<M>, fs: Fields, s: seq<byte>, least: nat, repeated: int)
  {
    Written(g, fs, s, repeated) && (fs.Field? ==> 8 * least <= KeyOf(fs.key))
  }

  lemma FieldTail<M>(g: Grammar<M>, key: byte, b: Body, more: Fields, s: seq<byte>, repeated: int)
    requires 8 <= key < 128 && Placed(g, key, b, more.Nothing?) && g.ok(key, b)
    requires Present(b) || (key == repeated && b.Block? && Shortest(b.length))
    requires Written(g, more, s, repeated)
    requires more.Field? ==> key < KeyOf(more.key) || key == KeyOf(more.key) == repeated
    ensures Written(g, Field([key], b, more), [key] + BodyBytes(b) + s, repeated)
    ensures KeyOf([key]) == key
  {
    KeyByte(key);
  }

  /** A length in its shortest form, and as many bytes. */
  predicate Measured(e: seq<byte>, p: seq<byte>)
  {
    IsVarint(e) && Denotes(e) == |p| < TWO_31 && Shortest(e)
  }

  lemma MeasuredFits<M>(g: Grammar<M>, key: byte, e: seq<byte>, p: seq<byte>, last: bool)
    requires Measured(e, p) && key % 8 == 2
    ensures Placed(g, key, Block(e, p), last)
  {
  }

  lemma Measures(p: seq<byte>)
    requires |p| < TWO_31
    ensures Measured(EncodeVarint(|p|), p)
  {
    EncodedDenotes(|p|);
  }

  lemma DelimitedBehind(number: nat, p: seq<byte>, s: seq<byte>)
    requires 1 <= number < 16
    ensures NestedField(number, p) + s == [number * 8 + 2] + (EncodeVarint(|p|) + p) + s
    ensures p != [] ==> TextField(number, p) + s == [number * 8 + 2] + (EncodeVarint(|p|) + p) + s
  {
  }

  lemma SameBytes<M>(g: Grammar<M>, fs: Fields, s: seq<byte>, t: seq<byte>, repeated: int)
    requires Written(g, fs, s, repeated) && s == t
    ensures Written(g, fs, t, repeated)
  {
  }

  lemma BlockTail<M>(g: Grammar<M>, key: byte, e: seq<byte>, p: seq<byte>, more: Fields, s: seq<byte>, repeated: int)
    requires 8 <= key < 128 && key % 8 == 2 && Measured(e, p) && g.ok(key, Block(e, p))
    requires p != [] || key == repeated
    requires Written(g, more, s, repeated)
    requires more.Field? ==> key < KeyOf(more.key) || key == KeyOf(more.key) == repeated
    ensures Written(g, Field([key], Block(e, p), more), [key] + (e + p) + s, repeated) && KeyOf([key]) == key
  {
    MeasuredFits(g, key, e, p, more.Nothing?);
    FieldTail(g, key, Block(e, p), more, s, repeated);
  }

  lemma TextTail<M>(g: Grammar<M>, number: nat, text: Text, more: Fields, s: seq<byte>, repeated: int)
    requires 1 <= number < 16 && |text| < TWO_31 && Tail(g, more, s, number + 1, repeated)
    requires number * 8 + 2 !in g.nested
    requires text != [] ==> g.ok(number * 8 + 2, Block(EncodeVarint(|text|), text))
    ensures Tail(g, TextPut(number, text, more), TextField(number, text) + s, number, repeated)
  {
    if text == [] {
      assert TextField(number, text) + s == s;
    } else {
      TextPresent(g, number, number * 8 + 2, text, more, s, repeated);
    }
  }

  lemma TextPresent<M>(g: Grammar<M>, number: nat, key: byte, text: Text, more: Fields, s: seq<byte>, repeated: int)
    requires 1 <= number < 16 && key == number * 8 + 2 && 0 < |text| < TWO_31 && Written(g, more, s, repeated)
    requires g.ok(key, Block(EncodeVarint(|text|), text)) && (more.Field? ==> key < KeyOf(more.key))
    ensures Written(g, TextPut(number, text, more), TextField(number, text) + s, repeated)
    ensures KeyOf(TextPut(number, text, more).key) == key
  {
    Measures(text);
    BlockTail(g, key, EncodeVarint(|text|), text, more, s, repeated);
    DelimitedBehind(number, text, s);
    SameBytes(g, TextPut(number, text, more), [key] + (EncodeVarint(|text|) + text) + s, TextField(number, text) + s,
              repeated);
  }

  lemma IntTail<M>(g: Grammar<M>, number: nat, v: i32, more: Fields, s: seq<byte>, repeated: int)
    requires 1 <= number < 16 && Tail(g, more, s, number + 1, repeated)
    requires number * 8 !in g.nested && g.ok(number * 8, Varint(EncodeVarint(SignExtended(v))))
    ensures Tail(g, IntPut(number, v, more), IntField(number, v) + s, number, repeated)
  {
    if v == 0 {
      assert IntField(number, v) + s == s;
    } else {
      EncodedDenotes(SignExtended(v));
      FieldTail(g, number * 8, Varint(EncodeVarint(SignExtended(v))), more, s, repeated);
    }
  }

  lemma WordTail<M>(g: Grammar<M>, number: nat, bits: u32, more: Fields, s: seq<byte>, repeated: int)
    requires 1 <= number < 16 && Tail(g, more, s, number + 1, repeated)
    requires number * 8 + 5 !in g.nested && g.ok(number * 8 + 5, Fixed32(LittleEndian32(bits)))
    ensures Tail(g, WordPut(number, bits, more), FloatField(number, bits) + s, number, repeated)
  {
    if IsZeroFloat(bits) {
      assert FloatField(number, bits) + s == s;
    } else {
      WordDenotes(bits);
      FieldTail(g, number * 8 + 5, Fixed32(LittleEndian32(bits)), more, s, repeated);
    }
  }

  lemma WordDenotes(bits: u32)
    ensures Word(LittleEndian32(bits)) == bits
  {
    LittleEndian32RoundTrip(bits, []);
    assert LittleEndian32(bits) + [] == LittleEndian32(bits);
  }

  /** One nested message in front of the others with its number. */
  lemma NestedTail<M>(g: Grammar<M>, number: nat, p: seq<byte>, more: Fields, s: seq<byte>, repeated: int)
    requires 1 <= number < 16 && |p| < TWO_31 && Written(g, more, s, repeated) && repeated == number * 8 + 2
    requires repeated in g.nested && g.ok(repeated, Block(EncodeVarint(|p|), p))
    requires more.Field? ==> KeyOf(more.key) == repeated
    ensures Written(g, NestedPut(number, p, more), NestedField(number, p) + s, repeated)
    ensures KeyOf(NestedPut(number, p, more).key) == repeated
  {
    Measures(p);
    BlockTail(g, repeated, EncodeVarint(|p|), p, more, s, repeated);
    DelimitedBehind(number, p, s);
    SameBytes(g, NestedPut(number, p, more), [repeated] + (EncodeVarint(|p|) + p) + s, NestedField(number, p) + s,
              repeated);
  }

  // ---------------------------------------------------------------- the messages

  lemma CmdTypeWritten(utf8: Utf8, x: CmdType) returns (fs: Fields)
    requires ValidCmdType(utf8, x)
    ensures Written(CmdTypeGrammar(utf8), fs, SerializeCmdType(x), 0)
  {
    var g := CmdTypeGrammar(utf8);
    fs := TextPut(4, x.toip, Nothing);
    TextTail(g, 4, x.toip, Nothing, [], 0);
    var f3 := TextPut(3, x.fromip, fs);
    TextTail(g, 3, x.fromip, fs, TextField(4, x.toip) + [], 0);
    var f2 := IntPut(2, x.size, f3);
    IntTail(g, 2, x.size, f3, TextField(3, x.fromip) + (TextField(4, x.toip) + []), 0);
    fs := TextPut(1, x.name, f2);
    TextTail(g, 1, x.name, f2, IntField(2, x.size) + (TextField(3, x.fromip) + (TextField(4, x.toip) + [])), 0);
    Regroup(TextField(1, x.name), IntField(2, x.size), TextField(3, x.fromip), TextField(4, x.toip));
  }

  lemma Regroup(a: seq<byte>, b: seq<byte>, c: seq<byte>, d: seq<byte>)
    ensures a + (b + (c + (d + []))) == a + b + c + d
    ensures a + (b + (c + d)) == a + b + c + d
    ensures a + (b + []) == a + b
  {
  }

  lemma MoveWritten(x: Move) returns (fs: Fields)
    ensures Written(MoveGrammar(), fs, SerializeMove(x), 0)
  {
    var f2 := WordPut(2, x.angle, Nothing);
    WordTail(MoveGrammar(), 2, x.angle, Nothing, [], 0);
    fs := WordPut(1, x.forward, f2);
    WordTail(MoveGrammar(), 1, x.forward, f2, FloatField(2, x.angle) + [], 0);
    Regroup(FloatField(1, x.forward), FloatField(2, x.angle), [], []);
  }

  lemma PhoneWritten(utf8: Utf8, x: Phone) returns (fs: Fields)
    requires ValidPhone(utf8, x)
    ensures Written(PhoneGrammar(utf8), fs, SerializePhone(x), 0)
  {
    var f2 := IntPut(2, x.kind, Nothing);
    IntTail(PhoneGrammar(utf8), 2, x.kind, Nothing, [], 0);
    fs := TextPut(1, x.number, f2);
    TextTail(PhoneGrammar(utf8), 1, x.number, f2, IntField(2, x.kind) + [], 0);
    Regroup(TextField(1, x.number), IntField(2, x.kind), [], []);
  }

  lemma {:induction false} PhonesFront(xs: seq<Phone>)
    requires xs != []
    ensures SerializePhones(xs) == NestedField(4, SerializePhone(xs[0])) + SerializePhones(xs[1..])
  {
    var n := |xs| - 1;
    if n > 0 {
      PhonesFront(xs[..n]);
      assert xs[..n][1..] == xs[1..][..n - 1] && xs[1..][n - 1] == xs[n];
      Associates(NestedField(4, SerializePhone(xs[0])), SerializePhones(xs[1..][..n - 1]),
                 NestedField(4, SerializePhone(xs[n])));
    } else {
      assert xs[..0] == [] && xs[1..] == [];
      assert [] + NestedField(4, SerializePhone(xs[0])) == NestedField(4, SerializePhone(xs[0])) + [];
    }
  }

  lemma {:induction false} PhonesWritten(utf8: Utf8, xs: seq<Phone>) returns (fs: Fields)
    requires ValidPhones(utf8, xs)
    ensures Tail(UserGrammar(utf8), fs, SerializePhones(xs), 4, 34) && (fs.Field? ==> KeyOf(fs.key) == 34)
  {
    if xs == [] {
      fs := Nothing;
    } else {
      assert ValidPhone(utf8, xs[0]);
      var more := PhonesWritten(utf8, xs[1..]);
      PhoneMerges(utf8, NO_PHONE, xs[0]);
      RunsWhole(PhoneTurn(utf8), NO_PHONE, SerializePhone(xs[0]), xs[0]);
      NestedTail(UserGrammar(utf8), 4, SerializePhone(xs[0]), more, SerializePhones(xs[1..]), 34);
      PhonesFront(xs);
      fs := NestedPut(4, SerializePhone(xs[0]), more);
    }
  }

  lemma UserTail(utf8: Utf8, x: User, f4: Fields, phones: seq<byte>) returns (fs: Fields)
    requires Storable(utf8, x.email) && Tail(UserGrammar(utf8), f4, phones, 4, 34)
    ensures Tail(UserGrammar(utf8), fs, IntField(2, x.id) + (TextField(3, x.email) + phones), 2, 34)
  {
    var f3 := TextPut(3, x.email, f4);
    TextTail(UserGrammar(utf8), 3, x.email, f4, phones, 34);
    fs := IntPut(2, x.id, f3);
    IntTail(UserGrammar(utf8), 2, x.id, f3, TextField(3, x.email) + phones, 34);
  }

  lemma UserWritten(utf8: Utf8, x: User) returns (fs: Fields)
    requires ValidUser(utf8, x)
    ensures Written(UserGrammar(utf8), fs, SerializeUser(x), 34)
  {
    var phones := SerializePhones(x.phones);
    var f4 := PhonesWritten(utf8, x.phones);
    var f2 := UserTail(utf8, x, f4, phones);
    fs := TextPut(1, x.name, f2);
    TextTail(UserGrammar(utf8), 1, x.name, f2, IntField(2, x.id) + (TextField(3, x.email) + phones), 34);
    Regroup(TextField(1, x.name), IntField(2, x.id), TextField(3, x.email), phones);
  }

  lemma {:induction false} UsersFront(xs: seq<User>)
    requires xs != []
    ensures SerializeUsers(xs) == NestedField(1, SerializeUser(xs[0])) + SerializeUsers(xs[1..])
  {
    var n := |xs| - 1;
    if n > 0 {
      UsersFront(xs[..n]);
      assert xs[..n][1..] == xs[1..][..n - 1] && xs[1..][n - 1] == xs[n];
      Associates(NestedField(1, SerializeUser(xs[0])), SerializeUsers(xs[1..][..n - 1]),
                 NestedField(1, SerializeUser(xs[n])));
    } else {
      assert xs[..0] == [] && xs[1..] == [];
      assert [] + NestedField(1, SerializeUser(xs[0])) == NestedField(1, SerializeUser(xs[0])) + [];
    }
  }

  lemma {:induction false} UsersWritten(utf8: Utf8, xs: seq<User>) returns (fs: Fields)
    requires ValidUsers(utf8, xs)
    ensures Tail(SigninGrammar(utf8), fs, SerializeUsers(xs), 1, 10) && (fs.Field? ==> KeyOf(fs.key) == 10)
  {
    if xs == [] {
      fs := Nothing;
    } else {
      assert ValidUser(utf8, xs[0]);
      var more := UsersWritten(utf8, xs[1..]);
      UserMerges(utf8, NO_USER, xs[0]);
      assert MergeUser(NO_USER, xs[0]) == xs[0];
      RunsWhole(UserTurn(utf8), NO_USER, SerializeUser(xs[0]), xs[0]);
      NestedTail(SigninGrammar(utf8), 1, SerializeUser(xs[0]), more, SerializeUsers(xs[1..]), 10);
      UsersFront(xs);
      fs := NestedPut(1, SerializeUser(xs[0]), more);
    }
  }

  lemma SigninWritten(utf8: Utf8, x: Signin) returns (fs: Fields)
    requires ValidSignin(utf8, x)
    ensures Written(SigninGrammar(utf8), fs, SerializeSignin(x), 10)
  {
    fs := UsersWritten(utf8, x.users);
  }
}
