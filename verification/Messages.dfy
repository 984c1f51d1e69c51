/**
  The generated code of BaseCmd.pb.cc for CmdType, sUser.ePhoneNumber, sUser, reqSignin and
  reqMove: the switch of each parse loop, the serializers, ByteSizeLong and MergeFrom. Strings
  are byte strings, floats are 32-bit patterns, and UTF-8 validity is a parameter.
 */
module Messages {
  import opened Bytes
  import opened Wire

  type Text = seq<byte>
  type Utf8 = seq<byte> -> bool

  datatype CmdType = CmdType(name: Text, size: i32, fromip: Text, toip: Text)
  datatype Phone = Phone(number: Text, kind: i32)
  datatype User = User(name: Text, id: i32, email: Text, phones: seq<Phone>)
  datatype Signin = Signin(users: seq<User>)
  datatype Move = Move(forward: u32, angle: u32)

  const NO_CMD := CmdType([], 0, [], [])
  const NO_PHONE := Phone([], 0)
  const NO_USER := User([], 0, [], [])
  const NO_SIGNIN := Signin([])
  const NO_MOVE := Move(0, 0)

  // ---------------------------------------------------------------- parsing

  function Skipped<M>(m: M, t: u32, s: seq<byte>, budget: nat): Turn<M>
  {
    match SkipField(t, s, budget)
    case Fail => Bad(m)
    case Got(_, rest) => Next(m, rest)
  }

  function CmdTypeTurn(utf8: Utf8): (CmdType, u32, seq<byte>) -> Turn<CmdType>
  {
    (m: CmdType, t: u32, s: seq<byte>) =>
      if t == 10 then
        var r := ReadText(utf8, m.name, s); Turned(r.ok, m.(name := r.value), r.rest)
      else if t == 16 then
        var r := ReadInt32(m.size, s); Turned(r.ok, m.(size := r.value), r.rest)
      else if t == 26 then
        var r := ReadText(utf8, m.fromip, s); Turned(r.ok, m.(fromip := r.value), r.rest)
      else if t == 34 then
        var r := ReadText(utf8, m.toip, s); Turned(r.ok, m.(toip := r.value), r.rest)
      else Skipped(m, t, s, RECURSION_LIMIT)
  }

  function PhoneTurn(utf8: Utf8): (Phone, u32, seq<byte>) -> Turn<Phone>
  {
    (m: Phone, t: u32, s: seq<byte>) =>
      if t == 10 then
        var r := ReadText(utf8, m.number, s); Turned(r.ok, m.(number := r.value), r.rest)
      else if t == 16 then
        var r := ReadInt32(m.kind, s); Turned(r.ok, m.(kind := r.value), r.rest)
      else Skipped(m, t, s, RECURSION_LIMIT - 2)
  }

  function UserTurn(utf8: Utf8): (User, u32, seq<byte>) -> Turn<User>
  {
    (m: User, t: u32, s: seq<byte>) =>
      if t == 10 then
        var r := ReadText(utf8, m.name, s); Turned(r.ok, m.(name := r.value), r.rest)
      else if t == 16 then
        var r := ReadInt32(m.id, s); Turned(r.ok, m.(id := r.value), r.rest)
      else if t == 26 then
        var r := ReadText(utf8, m.email, s); Turned(r.ok, m.(email := r.value), r.rest)
      else if t == 34 then
        var r := ReadNested(PhoneTurn(utf8), NO_PHONE, s);
        Turned(r.ok, m.(phones := m.phones + [r.value]), r.rest)
      else Skipped(m, t, s, RECURSION_LIMIT - 1)
  }

  function SigninTurn(utf8: Utf8): (Signin, u32, seq<byte>) -> Turn<Signin>
  {
    (m: Signin, t: u32, s: seq<byte>) =>
      if t == 10 then
        var r := ReadNested(UserTurn(utf8), NO_USER, s);
        Turned(r.ok, m.(users := m.users + [r.value]), r.rest)
      else Skipped(m, t, s, RECURSION_LIMIT)
  }

  function MoveTurn(): (Move, u32, seq<byte>) -> Turn<Move>
  {
    (m: Move, t: u32, s: seq<byte>) =>
      if t == 13 then
        var r := ReadFloat(m.forward, s); Turned(r.ok, m.(forward := r.value), r.rest)
      else if t == 21 then
        var r := ReadFloat(m.angle, s); Turned(r.ok, m.(angle := r.value), r.rest)
      else Skipped(m, t, s, RECURSION_LIMIT)
  }

  /** ParseFromArray: clear the message, then merge the bytes into it. */
  function ParseCmdType(utf8: Utf8, s: seq<byte>): Parsed<CmdType> { ParseLoop(CmdTypeTurn(utf8), NO_CMD, s) }
  function ParseSignin(utf8: Utf8, s: seq<byte>): Parsed<Signin> { ParseLoop(SigninTurn(utf8), NO_SIGNIN, s) }
  function ParseMove(s: seq<byte>): Parsed<Move> { ParseLoop(MoveTurn(), NO_MOVE, s) }

  // ---------------------------------------------------------------- serializing

  function SerializeCmdType(m: CmdType): seq<byte>
  {
    TextField(1, m.name) + IntField(2, m.size) + TextField(3, m.fromip) + TextField(4, m.toip)
  }

  function SerializePhone(m: Phone): seq<byte> { TextField(1, m.number) + IntField(2, m.kind) }

  function SerializePhones(ms: seq<Phone>): seq<byte>
  {
    if ms == [] then [] else SerializePhones(ms[..|ms| - 1]) + NestedField(4, SerializePhone(ms[|ms| - 1]))
  }

  function SerializeUser(m: User): seq<byte>
  {
    TextField(1, m.name) + IntField(2, m.id) + TextField(3, m.email) + SerializePhones(m.phones)
  }

  function SerializeUsers(ms: seq<User>): seq<byte>
  {
    if ms == [] then [] else SerializeUsers(ms[..|ms| - 1]) + NestedField(1, SerializeUser(ms[|ms| - 1]))
  }

  function SerializeSignin(m: Signin): seq<byte> { SerializeUsers(m.users) }

  function SerializeMove(m: Move): seq<byte> { FloatField(1, m.forward) + FloatField(2, m.angle) }

  lemma Associates(a: seq<byte>, b: seq<byte>, c: seq<byte>)
    ensures a + (b + c) == a + b + c
  {
  }

  /** sUser::SerializeWithCachedSizes, with its loop over the phones. */
  method WriteUser(m: User) returns (out: seq<byte>)
    ensures out == SerializeUser(m)
  {
    out := TextField(1, m.name) + IntField(2, m.id) + TextField(3, m.email);
    ghost var start := out;
    for i := 0 to |m.phones|
      invariant out == start + SerializePhones(m.phones[..i])
    {
      assert m.phones[..i + 1][..i] == m.phones[..i];
      Associates(start, SerializePhones(m.phones[..i]), NestedField(4, SerializePhone(m.phones[i])));
      out := out + NestedField(4, SerializePhone(m.phones[i]));
    }
    assert m.phones[..|m.phones|] == m.phones;
  }

  /** reqSignin::SerializeWithCachedSizes, with its loop over the users. */
  method WriteSignin(m: Signin) returns (out: seq<byte>)
    ensures out == SerializeSignin(m)
  {
    out := [];
    for i := 0 to |m.users|
      invariant out == SerializeUsers(m.users[..i])
    {
      assert m.users[..i + 1][..i] == m.users[..i];
      var user := WriteUser(m.users[i]);
      out := out + NestedField(1, user);
    }
    assert m.users[..|m.users|] == m.users;
  }

  // ---------------------------------------------------------------- merging

  function Later(first: Text, second: Text): Text { if second != [] then second else first }

  function MergeCmdType(m: CmdType, x: CmdType): CmdType
  {
    CmdType(Later(m.name, x.name), if x.size != 0 then x.size else m.size,
            Later(m.fromip, x.fromip), Later(m.toip, x.toip))
  }

  function MergePhone(m: Phone, x: Phone): Phone
  {
    Phone(Later(m.number, x.number), if x.kind != 0 then x.kind else m.kind)
  }

  function MergeUser(m: User, x: User): User
  {
    User(Later(m.name, x.name), if x.id != 0 then x.id else m.id,
         Later(m.email, x.email), m.phones + x.phones)
  }

  function MergeSignin(m: Signin, x: Signin): Signin { Signin(m.users + x.users) }

  function MergeMove(m: Move, x: Move): Move
  {
    Move(if IsZeroFloat(x.forward) then m.forward else x.forward,
         if IsZeroFloat(x.angle) then m.angle else x.angle)
  }

  // ---------------------------------------------------------------- what a serializer accepts

  /** A string the parser accepts back: valid UTF-8, and below the two-gigabyte limit. */
  predicate Storable(utf8: Utf8, s: Text) { |s| < TWO_31 && (s == [] || utf8(s)) }

  predicate ValidCmdType(utf8: Utf8, m: CmdType)
  {
    Storable(utf8, m.name) && Storable(utf8, m.fromip) && Storable(utf8, m.toip)
  }

  predicate ValidPhone(utf8: Utf8, m: Phone)
  {
    Storable(utf8, m.number) && |SerializePhone(m)| < TWO_31
  }

  predicate ValidUser(utf8: Utf8, m: User)
  {
    && Storable(utf8, m.name) && Storable(utf8, m.email)
    && (forall i {:trigger ValidPhone(utf8, m.phones[i])} :: 0 <= i < |m.phones| ==> ValidPhone(utf8, m.phones[i]))
    && |SerializeUser(m)| < TWO_31
  }

  predicate ValidSignin(utf8: Utf8, m: Signin)
  {
    forall i {:trigger ValidUser(utf8, m.users[i])} :: 0 <= i < |m.users| ==> ValidUser(utf8, m.users[i])
  }

  // ---------------------------------------------------------------- parsing a serialization is merging

  /** A text field whose turn reads into `put` leaves the later of the two texts. */
  lemma TextRuns<M>(f: (M, u32, seq<byte>) -> Turn<M>, utf8: Utf8, m: M, tag: u32, before: Text, text: Text, m': M,
                    put: Text -> M)
    requires 8 < tag < 128 && tag % 8 == WIRE_LENGTH
    requires Storable(utf8, text)
    requires forall s: seq<byte> :: f(m, tag, s) ==
               var r := ReadText(utf8, before, s); Turned(r.ok, put(r.value), r.rest)
    requires put(before) == m && m' == put(Later(before, text))
    ensures Runs(f, m, TextField(tag / 8, text), m')
  {
    if text == [] {
      RunsNothing(f, m);
    } else {
      forall s: seq<byte> ensures f(m, tag, Delimited(text) + s) == Next(m', s) {
        ReadTextBack(utf8, before, text, s);
      }
      RunsOneField(f, m, tag, Delimited(text), m');
    }
  }

  lemma IntRuns<M>(f: (M, u32, seq<byte>) -> Turn<M>, m: M, tag: u32, before: i32, v: i32, m': M, put: i32 -> M)
    requires 8 <= tag < 128 && tag % 8 == WIRE_VARINT
    requires forall s: seq<byte> :: f(m, tag, s) ==
               var r := ReadInt32(before, s); Turned(r.ok, put(r.value), r.rest)
    requires put(before) == m && m' == put(if v != 0 then v else before)
    ensures Runs(f, m, IntField(tag / 8, v), m')
  {
    if v == 0 {
      RunsNothing(f, m);
    } else {
      forall s: seq<byte> ensures f(m, tag, EncodeVarint(SignExtended(v)) + s) == Next(m', s) {
        ReadInt32Back(before, v, s);
      }
      RunsOneField(f, m, tag, EncodeVarint(SignExtended(v)), m');
    }
  }

  lemma FloatRuns<M>(f: (M, u32, seq<byte>) -> Turn<M>, m: M, tag: u32, before: u32, v: u32, m': M, put: u32 -> M)
    requires 8 < tag < 128 && tag % 8 == WIRE_FIXED32
    requires forall s: seq<byte> :: f(m, tag, s) ==
               var r := ReadFloat(before, s); Turned(r.ok, put(r.value), r.rest)
    requires put(before) == m && m' == put(if IsZeroFloat(v) then before else v)
    ensures Runs(f, m, FloatField(tag / 8, v), m')
  {
    if IsZeroFloat(v) {
      RunsNothing(f, m);
    } else {
      forall s: seq<byte> ensures f(m, tag, LittleEndian32(v) + s) == Next(m', s) {
        LittleEndian32RoundTrip(v, s);
      }
      RunsOneField(f, m, tag, LittleEndian32(v), m');
    }
  }

  lemma NestedRuns<M, N>(f: (M, u32, seq<byte>) -> Turn<M>, g: (N, u32, seq<byte>) -> Turn<N>, empty: N,
                         m: M, tag: u32, payload: seq<byte>, x: N, m': M, put: N -> M)
    requires 8 < tag < 128 && tag % 8 == WIRE_LENGTH
    requires |payload| < TWO_31 && Runs(g, empty, payload, x)
    requires forall s: seq<byte> :: f(m, tag, s) ==
               var r := ReadNested(g, empty, s); Turned(r.ok, put(r.value), r.rest)
    requires m' == put(x)
    ensures Runs(f, m, NestedField(tag / 8, payload), m')
  {
    forall s: seq<byte> ensures f(m, tag, Delimited(payload) + s) == Next(m', s) {
      ReadNestedBack(g, empty, payload, x, s);
    }
    RunsOneField(f, m, tag, Delimited(payload), m');
  }

  lemma CmdTypeMerges(utf8: Utf8, m: CmdType, x: CmdType)
    requires ValidCmdType(utf8, x)
    ensures Runs(CmdTypeTurn(utf8), m, SerializeCmdType(x), MergeCmdType(m, x))
  {
    var f := CmdTypeTurn(utf8);
    var m1 := m.(name := Later(m.name, x.name));
    var m2 := m1.(size := if x.size != 0 then x.size else m.size);
    var m3 := m2.(fromip := Later(m.fromip, x.fromip));
    var m4 := m3.(toip := Later(m.toip, x.toip));
    assert Runs(f, m, TextField(1, x.name), m1) by {
      TextRuns(f, utf8, m, 10, m.name, x.name, m1, (v: Text) => m.(name := v));
    }
    assert Runs(f, m1, IntField(2, x.size), m2) by {
      IntRuns(f, m1, 16, m1.size, x.size, m2, (v: i32) => m1.(size := v));
    }
    assert Runs(f, m2, TextField(3, x.fromip), m3) by {
      TextRuns(f, utf8, m2, 26, m2.fromip, x.fromip, m3, (v: Text) => m2.(fromip := v));
    }
    assert Runs(f, m3, TextField(4, x.toip), m4) by {
      TextRuns(f, utf8, m3, 34, m3.toip, x.toip, m4, (v: Text) => m3.(toip := v));
    }
    RunsThen(f, m, TextField(1, x.name), m1, IntField(2, x.size), m2);
    RunsThen(f, m, TextField(1, x.name) + IntField(2, x.size), m2, TextField(3, x.fromip), m3);
    RunsThen(f, m, TextField(1, x.name) + IntField(2, x.size) + TextField(3, x.fromip), m3, TextField(4, x.toip), m4);
  }

  lemma PhoneMerges(utf8: Utf8, m: Phone, x: Phone)
    requires ValidPhone(utf8, x)
    ensures Runs(PhoneTurn(utf8), m, SerializePhone(x), MergePhone(m, x))
  {
    var f := PhoneTurn(utf8);
    var m1 := m.(number := Later(m.number, x.number));
    var m2 := MergePhone(m, x);
    assert Runs(f, m, TextField(1, x.number), m1) by {
      TextRuns(f, utf8, m, 10, m.number, x.number, m1, (v: Text) => m.(number := v));
    }
    assert Runs(f, m1, IntField(2, x.kind), m2) by {
      IntRuns(f, m1, 16, m1.kind, x.kind, m2, (v: i32) => m1.(kind := v));
    }
    RunsThen(f, m, TextField(1, x.number), m1, IntField(2, x.kind), m2);
  }

  lemma OnePhoneAppends(utf8: Utf8, m: User, x: Phone)
    requires ValidPhone(utf8, x)
    ensures Runs(UserTurn(utf8), m, NestedField(4, SerializePhone(x)), m.(phones := m.phones + [x]))
  {
    PhoneMerges(utf8, NO_PHONE, x);
    NestedRuns(UserTurn(utf8), PhoneTurn(utf8), NO_PHONE, m, 34, SerializePhone(x), x,
               m.(phones := m.phones + [x]), (v: Phone) => m.(phones := m.phones + [v]));
  }

  ghost predicate ValidPhones(utf8: Utf8, xs: seq<Phone>)
  {
    forall i {:trigger ValidPhone(utf8, xs[i])} :: 0 <= i < |xs| ==> ValidPhone(utf8, xs[i])
  }

  lemma SerializePhoneAfter(xs: seq<Phone>, x: Phone)
    ensures SerializePhones(xs + [x]) == SerializePhones(xs) + NestedField(4, SerializePhone(x))
  {
    assert (xs + [x])[..|xs|] == xs;
  }

  lemma PhoneAfter(utf8: Utf8, m: User, xs: seq<Phone>, x: Phone)
    requires ValidPhone(utf8, x) && Runs(UserTurn(utf8), m, SerializePhones(xs), m.(phones := m.phones + xs))
    ensures Runs(UserTurn(utf8), m, SerializePhones(xs + [x]), m.(phones := m.phones + (xs + [x])))
  {
    var before := m.(phones := m.phones + xs);
    OnePhoneAppends(utf8, before, x);
    RunsThen(UserTurn(utf8), m, SerializePhones(xs), before, NestedField(4, SerializePhone(x)),
             m.(phones := before.phones + [x]));
    SerializePhoneAfter(xs, x);
    assert before.phones + [x] == m.phones + (xs + [x]);
  }

  lemma OneMorePhone(utf8: Utf8, m: User, xs: seq<Phone>, n: nat)
    requires n < |xs| && ValidPhones(utf8, xs)
    requires Runs(UserTurn(utf8), m, SerializePhones(xs[..n]), m.(phones := m.phones + xs[..n]))
    ensures Runs(UserTurn(utf8), m, SerializePhones(xs[..n + 1]), m.(phones := m.phones + xs[..n + 1]))
  {
    assert ValidPhone(utf8, xs[n]);
    PhoneAfter(utf8, m, xs[..n], xs[n]);
    assert xs[..n + 1] == xs[..n] + [xs[n]];
  }

  lemma {:induction false} PhonesAppend(utf8: Utf8, m: User, xs: seq<Phone>, n: nat)
    requires n <= |xs| && ValidPhones(utf8, xs)
    ensures Runs(UserTurn(utf8), m, SerializePhones(xs[..n]), m.(phones := m.phones + xs[..n]))
    decreases n
  {
    if n == 0 {
      RunsNothing(UserTurn(utf8), m);
      assert m.phones + xs[..0] == m.phones;
    } else {
      PhonesAppend(utf8, m, xs, n - 1);
      OneMorePhone(utf8, m, xs, n - 1);
    }
  }

  lemma UserMerges(utf8: Utf8, m: User, x: User)
    requires ValidUser(utf8, x)
    ensures Runs(UserTurn(utf8), m, SerializeUser(x), MergeUser(m, x))
  {
    var f := UserTurn(utf8);
    var m1 := m.(name := Later(m.name, x.name));
    var m2 := m1.(id := if x.id != 0 then x.id else m.id);
    var m3 := m2.(email := Later(m.email, x.email));
    var m4 := m3.(phones := m.phones + x.phones);
    assert Runs(f, m, TextField(1, x.name), m1) by {
      TextRuns(f, utf8, m, 10, m.name, x.name, m1, (v: Text) => m.(name := v));
    }
    assert Runs(f, m1, IntField(2, x.id), m2) by {
      IntRuns(f, m1, 16, m1.id, x.id, m2, (v: i32) => m1.(id := v));
    }
    assert Runs(f, m2, TextField(3, x.email), m3) by {
      TextRuns(f, utf8, m2, 26, m2.email, x.email, m3, (v: Text) => m2.(email := v));
    }
    PhonesAppend(utf8, m3, x.phones, |x.phones|);
    assert x.phones[..|x.phones|] == x.phones;
    RunsThen(f, m, TextField(1, x.name), m1, IntField(2, x.id), m2);
    RunsThen(f, m, TextField(1, x.name) + IntField(2, x.id), m2, TextField(3, x.email), m3);
    RunsThen(f, m, TextField(1, x.name) + IntField(2, x.id) + TextField(3, x.email), m3,
             SerializePhones(x.phones), m4);
  }

  lemma OneUserAppends(utf8: Utf8, m: Signin, x: User)
    requires ValidUser(utf8, x)
    ensures Runs(SigninTurn(utf8), m, NestedField(1, SerializeUser(x)), m.(users := m.users + [x]))
  {
    UserMerges(utf8, NO_USER, x);
    assert MergeUser(NO_USER, x) == x;
    NestedRuns(SigninTurn(utf8), UserTurn(utf8), NO_USER, m, 10, SerializeUser(x), x,
               m.(users := m.users + [x]), (v: User) => m.(users := m.users + [v]));
  }

  ghost predicate ValidUsers(utf8: Utf8, xs: seq<User>)
  {
    forall i {:trigger ValidUser(utf8, xs[i])} :: 0 <= i < |xs| ==> ValidUser(utf8, xs[i])
  }

  lemma SerializeUserAfter(xs: seq<User>, x: User)
    ensures SerializeUsers(xs + [x]) == SerializeUsers(xs) + NestedField(1, SerializeUser(x))
  {
    assert (xs + [x])[..|xs|] == xs;
  }

  lemma UserAfter(utf8: Utf8, m: Signin, xs: seq<User>, x: User)
    requires ValidUser(utf8, x) && Runs(SigninTurn(utf8), m, SerializeUsers(xs), m.(users := m.users + xs))
    ensures Runs(SigninTurn(utf8), m, SerializeUsers(xs + [x]), m.(users := m.users + (xs + [x])))
  {
    var before := m.(users := m.users + xs);
    OneUserAppends(utf8, before, x);
    RunsThen(SigninTurn(utf8), m, SerializeUsers(xs), before, NestedField(1, SerializeUser(x)),
             m.(users := before.users + [x]));
    SerializeUserAfter(xs, x);
    assert before.users + [x] == m.users + (xs + [x]);
  }

  lemma OneMoreUser(utf8: Utf8, m: Signin, xs: seq<User>, n: nat)
    requires n < |xs| && ValidUsers(utf8, xs)
    requires Runs(SigninTurn(utf8), m, SerializeUsers(xs[..n]), m.(users := m.users + xs[..n]))
    ensures Runs(SigninTurn(utf8), m, SerializeUsers(xs[..n + 1]), m.(users := m.users + xs[..n + 1]))
  {
    assert ValidUser(utf8, xs[n]);
    UserAfter(utf8, m, xs[..n], xs[n]);
    assert xs[..n + 1] == xs[..n] + [xs[n]];
  }

  lemma {:induction false} UsersAppend(utf8: Utf8, m: Signin, xs: seq<User>, n: nat)
    requires n <= |xs| && ValidUsers(utf8, xs)
    ensures Runs(SigninTurn(utf8), m, SerializeUsers(xs[..n]), m.(users := m.users + xs[..n]))
    decreases n
  {
    if n == 0 {
      RunsNothing(SigninTurn(utf8), m);
      assert m.users + xs[..0] == m.users;
    } else {
      UsersAppend(utf8, m, xs, n - 1);
      OneMoreUser(utf8, m, xs, n - 1);
    }
  }

  lemma SigninMerges(utf8: Utf8, m: Signin, x: Signin)
    requires ValidSignin(utf8, x)
    ensures Runs(SigninTurn(utf8), m, SerializeSignin(x), MergeSignin(m, x))
  {
    UsersAppend(utf8, m, x.users, |x.users|);
    assert x.users[..|x.users|] == x.users;
  }

  lemma MoveMerges(m: Move, x: Move)
    ensures Runs(MoveTurn(), m, SerializeMove(x), MergeMove(m, x))
  {
    var f := MoveTurn();
    var m1 := m.(forward := if IsZeroFloat(x.forward) then m.forward else x.forward);
    var m2 := MergeMove(m, x);
    assert Runs(f, m, FloatField(1, x.forward), m1) by {
      FloatRuns(f, m, 13, m.forward, x.forward, m1, (v: u32) => m.(forward := v));
    }
    assert Runs(f, m1, FloatField(2, x.angle), m2) by {
      FloatRuns(f, m1, 21, m1.angle, x.angle, m2, (v: u32) => m1.(angle := v));
    }
    RunsThen(f, m, FloatField(1, x.forward), m1, FloatField(2, x.angle), m2);
  }

  // ---------------------------------------------------------------- round trips

  /** Negative zero is not written, so it comes back as zero. */
  function Unsigned(bits: u32): u32 { if bits == 0x8000_0000 then 0 else bits }

  lemma CmdTypeRoundTrip(utf8: Utf8, x: CmdType)
    requires ValidCmdType(utf8, x)
    ensures ParseCmdType(utf8, SerializeCmdType(x)) == Parsed(true, x)
  {
    CmdTypeMerges(utf8, NO_CMD, x);
    RunsWhole(CmdTypeTurn(utf8), NO_CMD, SerializeCmdType(x), x);
  }

  lemma SigninRoundTrip(utf8: Utf8, x: Signin)
    requires ValidSignin(utf8, x)
    ensures ParseSignin(utf8, SerializeSignin(x)) == Parsed(true, x)
  {
    SigninMerges(utf8, NO_SIGNIN, x);
    assert MergeSignin(NO_SIGNIN, x) == x;
    RunsWhole(SigninTurn(utf8), NO_SIGNIN, SerializeSignin(x), x);
  }

  lemma MoveRoundTrip(x: Move)
    ensures ParseMove(SerializeMove(x)) == Parsed(true, Move(Unsigned(x.forward), Unsigned(x.angle)))
  {
    MoveMerges(NO_MOVE, x);
    RunsWhole(MoveTurn(), NO_MOVE, SerializeMove(x), MergeMove(NO_MOVE, x));
  }

  /** The bytes of two messages one after the other parse as the second merged into the first. */
  lemma SigninConcatenation(utf8: Utf8, a: Signin, b: Signin)
    requires ValidSignin(utf8, a) && ValidSignin(utf8, b)
    ensures ParseSignin(utf8, SerializeSignin(a) + SerializeSignin(b)) == Parsed(true, MergeSignin(a, b))
  {
    SigninMerges(utf8, NO_SIGNIN, a);
    SigninMerges(utf8, a, b);
    assert MergeSignin(NO_SIGNIN, a) == a;
    RunsThen(SigninTurn(utf8), NO_SIGNIN, SerializeSignin(a), a, SerializeSignin(b), MergeSignin(a, b));
    RunsWhole(SigninTurn(utf8), NO_SIGNIN, SerializeSignin(a) + SerializeSignin(b), MergeSignin(a, b));
  }

  lemma CmdTypeConcatenation(utf8: Utf8, a: CmdType, b: CmdType)
    requires ValidCmdType(utf8, a) && ValidCmdType(utf8, b)
    ensures ParseCmdType(utf8, SerializeCmdType(a) + SerializeCmdType(b)) == Parsed(true, MergeCmdType(a, b))
  {
    CmdTypeMerges(utf8, NO_CMD, a);
    CmdTypeMerges(utf8, a, b);
    RunsThen(CmdTypeTurn(utf8), NO_CMD, SerializeCmdType(a), a, SerializeCmdType(b), MergeCmdType(a, b));
    RunsWhole(CmdTypeTurn(utf8), NO_CMD, SerializeCmdType(a) + SerializeCmdType(b), MergeCmdType(a, b));
  }

  lemma MoveConcatenation(a: Move, b: Move)
    ensures ParseMove(SerializeMove(a) + SerializeMove(b)) == Parsed(true, MergeMove(MergeMove(NO_MOVE, a), b))
  {
    var m := MergeMove(NO_MOVE, a);
    MoveMerges(NO_MOVE, a);
    MoveMerges(m, b);
    RunsThen(MoveTurn(), NO_MOVE, SerializeMove(a), m, SerializeMove(b), MergeMove(m, b));
    RunsWhole(MoveTurn(), NO_MOVE, SerializeMove(a) + SerializeMove(b), MergeMove(m, b));
  }

  // ---------------------------------------------------------------- ByteSizeLong

  function TextSize(s: Text): nat
    requires |s| < TWO_32
  {
    if s == [] then 0 else 1 + LengthDelimitedSize(|s|)
  }

  function IntSize(v: i32): nat { if v == 0 then 0 else 1 + Int32Size(v) }

  function FloatSize(v: u32): nat { if IsZeroFloat(v) then 0 else 1 + 4 }

  method ByteSizeCmdType(m: CmdType) returns (total: nat)
    requires |m.name| < TWO_31 && |m.fromip| < TWO_31 && |m.toip| < TWO_31
    ensures total == |SerializeCmdType(m)|
  {
    FieldSizesExact(m.name, m.size);
    FieldSizesExact(m.fromip, m.size);
    FieldSizesExact(m.toip, m.size);
    total := TextSize(m.name) + TextSize(m.fromip) + TextSize(m.toip) + IntSize(m.size);
  }

  method ByteSizePhone(m: Phone) returns (total: nat)
    requires |m.number| < TWO_31
    ensures total == |SerializePhone(m)|
  {
    FieldSizesExact(m.number, m.kind);
    total := TextSize(m.number) + IntSize(m.kind);
  }

  lemma UserFieldSizes(m: User)
    requires |m.name| < TWO_31 && |m.email| < TWO_31
    ensures |SerializeUser(m)| ==
            TextSize(m.name) + IntSize(m.id) + TextSize(m.email) + |SerializePhones(m.phones)|
  {
    FieldSizesExact(m.name, m.id);
    FieldSizesExact(m.email, m.id);
  }

  lemma NestedSize(number: nat, payload: seq<byte>)
    requires 1 <= number < 16 && |payload| < TWO_32
    ensures |NestedField(number, payload)| == 1 + LengthDelimitedSize(|payload|)
  {
    FieldSizesExact(payload, 0);
  }

  lemma OnePhoneSize(utf8: Utf8, ms: seq<Phone>, i: nat)
    requires i < |ms| && ValidPhone(utf8, ms[i])
    ensures |SerializePhone(ms[i])| < TWO_32
    ensures |SerializePhones(ms[..i + 1])| ==
            |SerializePhones(ms[..i])| + 1 + LengthDelimitedSize(|SerializePhone(ms[i])|)
  {
    assert ms[..i + 1][..i] == ms[..i];
    NestedSize(4, SerializePhone(ms[i]));
  }

  lemma OneUserSize(utf8: Utf8, ms: seq<User>, i: nat)
    requires i < |ms| && ValidUser(utf8, ms[i])
    ensures |SerializeUser(ms[i])| < TWO_32
    ensures |SerializeUsers(ms[..i + 1])| ==
            |SerializeUsers(ms[..i])| + 1 + LengthDelimitedSize(|SerializeUser(ms[i])|)
  {
    assert ms[..i + 1][..i] == ms[..i];
    NestedSize(1, SerializeUser(ms[i]));
  }

  /** What one phone adds, besides its tag byte. */
  method PhoneShare(utf8: Utf8, m: User, i: nat) returns (n: nat)
    requires i < |m.phones| && ValidUser(utf8, m)
    ensures |SerializePhones(m.phones[..i + 1])| == |SerializePhones(m.phones[..i])| + 1 + n
  {
    assert ValidPhone(utf8, m.phones[i]);
    var size := ByteSizePhone(m.phones[i]);
    OnePhoneSize(utf8, m.phones, i);
    n := LengthDelimitedSize(size);
  }

  /** sUser::ByteSizeLong: one tag byte per phone, then each phone's delimited size. */
  method ByteSizeUser(utf8: Utf8, m: User) returns (total: nat)
    requires ValidUser(utf8, m)
    ensures total == |SerializeUser(m)|
  {
    total := 1 * |m.phones|;
    for i := 0 to |m.phones|
      invariant total == |SerializePhones(m.phones[..i])| + (|m.phones| - i)
    {
      var n := PhoneShare(utf8, m, i);
      total := total + n;
    }
    assert m.phones[..|m.phones|] == m.phones;
    UserFieldSizes(m);
    total := total + TextSize(m.name) + TextSize(m.email) + IntSize(m.id);
  }

  /** What one user adds, besides its tag byte. */
  method UserShare(utf8: Utf8, m: Signin, i: nat) returns (n: nat)
    requires i < |m.users| && ValidSignin(utf8, m)
    ensures |SerializeUsers(m.users[..i + 1])| == |SerializeUsers(m.users[..i])| + 1 + n
  {
    assert ValidUser(utf8, m.users[i]);
    var size := ByteSizeUser(utf8, m.users[i]);
    OneUserSize(utf8, m.users, i);
    n := LengthDelimitedSize(size);
  }

  method ByteSizeSignin(utf8: Utf8, m: Signin) returns (total: nat)
    requires ValidSignin(utf8, m)
    ensures total == |SerializeSignin(m)|
  {
    total := 1 * |m.users|;
    for i := 0 to |m.users|
      invariant total == |SerializeUsers(m.users[..i])| + (|m.users| - i)
    {
      var n := UserShare(utf8, m, i);
      total := total + n;
    }
    assert m.users[..|m.users|] == m.users;
  }

  method ByteSizeMove(m: Move) returns (total: nat)
    ensures total == |SerializeMove(m)|
  {
    total := FloatSize(m.forward) + FloatSize(m.angle);
  }
}
