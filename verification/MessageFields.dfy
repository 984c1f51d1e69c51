/**
  Unknown fields in the five message types: which tags each switch knows, how deep the groups it
  skips may nest, and that fields it does not know, put between the fields of a serialization at
  any level, do not change what it parses to.
 */
module MessageFields {
  import opened Bytes
  import opened Wire
  import opened WireFields
  import opened Messages

  // ---------------------------------------------------------------- what each switch knows

  lemma CmdTypeIgnores(utf8: Utf8)
    ensures Ignores(CmdTypeTurn(utf8), {10, 16, 26, 34}, 100)
  {
  }

  lemma PhoneIgnores(utf8: Utf8)
    ensures Ignores(PhoneTurn(utf8), {10, 16}, 98)
  {
  }

  lemma UserIgnores(utf8: Utf8)
    ensures Ignores(UserTurn(utf8), {10, 16, 26, 34}, 99)
  {
  }

  lemma SigninIgnores(utf8: Utf8)
    ensures Ignores(SigninTurn(utf8), {10}, 100)
  {
  }

  lemma MoveIgnores()
    ensures Ignores(MoveTurn(), {13, 21}, 100)
  {
  }

  /** A field with any tag the switch does not know, and a body that fits it, leaves each message as it is. */
  lemma UnknownIsSkipped(utf8: Utf8, k: seq<byte>, b: Body)
    requires IsKey(k)
    ensures KeyOf(k) !in {10, 16, 26, 34} && Fits(KeyOf(k), b, 100) ==>
              forall m :: Runs(CmdTypeTurn(utf8), m, k + BodyBytes(b), m)
    ensures KeyOf(k) !in {10, 16} && Fits(KeyOf(k), b, 98) ==>
              forall m :: Runs(PhoneTurn(utf8), m, k + BodyBytes(b), m)
    ensures KeyOf(k) !in {10, 16, 26, 34} && Fits(KeyOf(k), b, 99) ==>
              forall m :: Runs(UserTurn(utf8), m, k + BodyBytes(b), m)
    ensures KeyOf(k) != 10 && Fits(KeyOf(k), b, 100) ==>
              forall m :: Runs(SigninTurn(utf8), m, k + BodyBytes(b), m)
    ensures KeyOf(k) !in {13, 21} && Fits(KeyOf(k), b, 100) ==>
              forall m :: Runs(MoveTurn(), m, k + BodyBytes(b), m)
  {
    CmdTypeIgnores(utf8);
    PhoneIgnores(utf8);
    UserIgnores(utf8);
    SigninIgnores(utf8);
    MoveIgnores();
    SkippedByAll(CmdTypeTurn(utf8), {10, 16, 26, 34}, 100, k, b);
    SkippedByAll(PhoneTurn(utf8), {10, 16}, 98, k, b);
    SkippedByAll(UserTurn(utf8), {10, 16, 26, 34}, 99, k, b);
    SkippedByAll(SigninTurn(utf8), {10}, 100, k, b);
    SkippedByAll(MoveTurn(), {13, 21}, 100, k, b);
  }

  lemma SkippedByAll<M(!new)>(f: (M, u32, seq<byte>) -> Turn<M>, known: set<int>, depth: nat, k: seq<byte>, b: Body)
    requires Ignores(f, known, depth) && IsKey(k)
    ensures KeyOf(k) !in known && Fits(KeyOf(k), b, depth) ==> forall m :: Runs(f, m, k + BodyBytes(b), m)
  {
    if KeyOf(k) !in known && Fits(KeyOf(k), b, depth) {
      forall m ensures Runs(f, m, k + BodyBytes(b), m) { UnknownField(f, known, depth, m, k, b); }
    }
  }

  // ---------------------------------------------------------------- flat messages

  function CmdTypePieces(x: CmdType): seq<seq<byte>>
  {
    [TextField(1, x.name), IntField(2, x.size), TextField(3, x.fromip), TextField(4, x.toip)]
  }

  /** With unknown fields before, between and behind its own, a CmdType parses to the same. */
  lemma CmdTypeAmongUnknown(utf8: Utf8, x: CmdType, pads: seq<seq<byte>>)
    requires ValidCmdType(utf8, x) && |pads| == 5 && AllForeign(pads, {10, 16, 26, 34}, 100)
    ensures ParseCmdType(utf8, Woven(CmdTypePieces(x), pads)) == Parsed(true, x)
  {
    var f := CmdTypeTurn(utf8);
    var m1 := NO_CMD.(name := x.name);
    var m2 := m1.(size := x.size);
    var m3 := m2.(fromip := x.fromip);
    assert Runs(f, NO_CMD, TextField(1, x.name), m1) by {
      TextRuns(f, utf8, NO_CMD, 10, [], x.name, m1, (v: Text) => NO_CMD.(name := v));
    }
    assert Runs(f, m1, IntField(2, x.size), m2) by {
      IntRuns(f, m1, 16, 0, x.size, m2, (v: i32) => m1.(size := v));
    }
    assert Runs(f, m2, TextField(3, x.fromip), m3) by {
      TextRuns(f, utf8, m2, 26, [], x.fromip, m3, (v: Text) => m2.(fromip := v));
    }
    assert Runs(f, m3, TextField(4, x.toip), x) by {
      TextRuns(f, utf8, m3, 34, [], x.toip, x, (v: Text) => m3.(toip := v));
    }
    CmdTypeIgnores(utf8);
    WovenRuns(f, {10, 16, 26, 34}, 100, [NO_CMD, m1, m2, m3, x], CmdTypePieces(x), pads);
    RunsWhole(f, NO_CMD, Woven(CmdTypePieces(x), pads), x);
  }

  function MovePieces(x: Move): seq<seq<byte>> { [FloatField(1, x.forward), FloatField(2, x.angle)] }

  lemma MoveAmongUnknown(x: Move, pads: seq<seq<byte>>)
    requires |pads| == 3 && AllForeign(pads, {13, 21}, 100)
    ensures ParseMove(Woven(MovePieces(x), pads)) == Parsed(true, Move(Unsigned(x.forward), Unsigned(x.angle)))
  {
    var f := MoveTurn();
    var m1 := NO_MOVE.(forward := Unsigned(x.forward));
    var m2 := m1.(angle := Unsigned(x.angle));
    assert Runs(f, NO_MOVE, FloatField(1, x.forward), m1) by {
      FloatRuns(f, NO_MOVE, 13, 0, x.forward, m1, (v: u32) => NO_MOVE.(forward := v));
    }
    assert Runs(f, m1, FloatField(2, x.angle), m2) by {
      FloatRuns(f, m1, 21, 0, x.angle, m2, (v: u32) => m1.(angle := v));
    }
    MoveIgnores();
    WovenRuns(f, {13, 21}, 100, [NO_MOVE, m1, m2], MovePieces(x), pads);
    RunsWhole(f, NO_MOVE, Woven(MovePieces(x), pads), m2);
  }

  // ---------------------------------------------------------------- nested messages

  /** A message with the unknown fields that stand around its own, at every level. */
  datatype PaddedPhone = PaddedPhone(phone: Phone, pads: seq<seq<byte>>)
  datatype PaddedUser = PaddedUser(name: Text, id: i32, email: Text, phones: seq<PaddedPhone>, pads: seq<seq<byte>>)
  datatype PaddedSignin = PaddedSignin(users: seq<PaddedUser>, pads: seq<seq<byte>>)

  function PhonePieces(x: Phone): seq<seq<byte>> { [TextField(1, x.number), IntField(2, x.kind)] }

  function PhoneBytes(x: PaddedPhone): seq<byte>
    requires |x.pads| == 3
  {
    Woven(PhonePieces(x.phone), x.pads)
  }

  ghost predicate PhonePadded(utf8: Utf8, x: PaddedPhone)
  {
    && |x.pads| == 3 && AllForeign(x.pads, {10, 16}, 98)
    && Storable(utf8, x.phone.number) && |PhoneBytes(x)| < TWO_31
  }

  ghost predicate PhonesPadded(utf8: Utf8, xs: seq<PaddedPhone>)
  {
    forall i {:trigger xs[i]} :: 0 <= i < |xs| ==> PhonePadded(utf8, xs[i])
  }

  ghost function Phones(xs: seq<PaddedPhone>): seq<Phone> { seq(|xs|, i requires 0 <= i < |xs| => xs[i].phone) }

  ghost function PhoneFields(utf8: Utf8, xs: seq<PaddedPhone>): (r: seq<seq<byte>>)
    requires PhonesPadded(utf8, xs)
    ensures |r| == |xs|
  {
    if xs == [] then []
    else PhoneFields(utf8, xs[..|xs| - 1]) + [NestedField(4, PhoneBytes(xs[|xs| - 1]))]
  }

  ghost function UserPieces(utf8: Utf8, x: PaddedUser): (r: seq<seq<byte>>)
    requires PhonesPadded(utf8, x.phones)
    ensures |r| == 3 + |x.phones|
  {
    [TextField(1, x.name), IntField(2, x.id), TextField(3, x.email)] + PhoneFields(utf8, x.phones)
  }

  ghost function UserBytes(utf8: Utf8, x: PaddedUser): seq<byte>
    requires PhonesPadded(utf8, x.phones) && |x.pads| == 4 + |x.phones|
  {
    Woven(UserPieces(utf8, x), x.pads)
  }

  ghost predicate UserPadded(utf8: Utf8, x: PaddedUser)
  {
    && PhonesPadded(utf8, x.phones) && |x.pads| == 4 + |x.phones|
    && AllForeign(x.pads, {10, 16, 26, 34}, 99)
    && Storable(utf8, x.name) && Storable(utf8, x.email) && |UserBytes(utf8, x)| < TWO_31
  }

  ghost predicate UsersPadded(utf8: Utf8, xs: seq<PaddedUser>)
  {
    forall i {:trigger xs[i]} :: 0 <= i < |xs| ==> UserPadded(utf8, xs[i])
  }

  ghost function PlainUser(x: PaddedUser): User { User(x.name, x.id, x.email, Phones(x.phones)) }

  ghost function Users(xs: seq<PaddedUser>): seq<User> { seq(|xs|, i requires 0 <= i < |xs| => PlainUser(xs[i])) }

  ghost function UserFields(utf8: Utf8, xs: seq<PaddedUser>): (r: seq<seq<byte>>)
    requires UsersPadded(utf8, xs)
    ensures |r| == |xs|
  {
    if xs == [] then []
    else UserFields(utf8, xs[..|xs| - 1]) + [NestedField(1, UserBytes(utf8, xs[|xs| - 1]))]
  }

  lemma PaddedPhoneRuns(utf8: Utf8, x: PaddedPhone)
    requires PhonePadded(utf8, x)
    ensures Runs(PhoneTurn(utf8), NO_PHONE, PhoneBytes(x), x.phone)
  {
    var f := PhoneTurn(utf8);
    var m1 := NO_PHONE.(number := x.phone.number);
    assert Runs(f, NO_PHONE, TextField(1, x.phone.number), m1) by {
      TextRuns(f, utf8, NO_PHONE, 10, [], x.phone.number, m1, (v: Text) => NO_PHONE.(number := v));
    }
    assert Runs(f, m1, IntField(2, x.phone.kind), x.phone) by {
      IntRuns(f, m1, 16, 0, x.phone.kind, x.phone, (v: i32) => m1.(kind := v));
    }
    PhoneIgnores(utf8);
    WovenRuns(f, {10, 16}, 98, [NO_PHONE, m1, x.phone], PhonePieces(x.phone), x.pads);
  }

  lemma PaddedPhoneAppends(utf8: Utf8, m: User, x: PaddedPhone)
    requires PhonePadded(utf8, x)
    ensures Runs(UserTurn(utf8), m, NestedField(4, PhoneBytes(x)), m.(phones := m.phones + [x.phone]))
  {
    PaddedPhoneRuns(utf8, x);
    NestedRuns(UserTurn(utf8), PhoneTurn(utf8), NO_PHONE, m, 34, PhoneBytes(x), x.phone,
               m.(phones := m.phones + [x.phone]), (v: Phone) => m.(phones := m.phones + [v]));
  }

  lemma PhonesOneMore(xs: seq<PaddedPhone>, n: nat)
    requires n < |xs|
    ensures Phones(xs[..n]) + [xs[n].phone] == Phones(xs[..n + 1])
  {
  }

  lemma PhoneFieldsOneMore(utf8: Utf8, pieces: seq<seq<byte>>, xs: seq<PaddedPhone>, n: nat)
    requires n < |xs| && PhonesPadded(utf8, xs)
    ensures pieces + PhoneFields(utf8, xs[..n + 1]) ==
            pieces + PhoneFields(utf8, xs[..n]) + [NestedField(4, PhoneBytes(xs[n]))]
  {
    assert xs[..n + 1][..n] == xs[..n];
  }

  lemma PhoneLeadsOn(utf8: Utf8, ms: seq<User>, pieces: seq<seq<byte>>, m: User, xs: seq<PaddedPhone>, n: nat)
    returns (longer: seq<User>)
    requires n < |xs| && PhonePadded(utf8, xs[n]) && Leads(UserTurn(utf8), ms, pieces)
    requires ms[|pieces|] == m.(phones := Phones(xs[..n]))
    ensures Leads(UserTurn(utf8), longer, pieces + [NestedField(4, PhoneBytes(xs[n]))])
    ensures longer[0] == ms[0] && longer[|pieces| + 1] == m.(phones := Phones(xs[..n + 1]))
  {
    var done := m.(phones := Phones(xs[..n + 1]));
    PaddedPhoneAppends(utf8, ms[|pieces|], xs[n]);
    PhonesOneMore(xs, n);
    LeadsOn(UserTurn(utf8), ms, pieces, NestedField(4, PhoneBytes(xs[n])), done);
    longer := ms + [done];
  }

  lemma {:induction false} PhonesLead(utf8: Utf8, before: seq<User>, pieces: seq<seq<byte>>, m: User,
                                      xs: seq<PaddedPhone>, n: nat) returns (ms: seq<User>)
    requires Leads(UserTurn(utf8), before, pieces) && before[|pieces|] == m && m.phones == []
    requires PhonesPadded(utf8, xs) && n <= |xs|
    ensures Leads(UserTurn(utf8), ms, pieces + PhoneFields(utf8, xs[..n]))
    ensures ms[0] == before[0] && ms[|pieces| + n] == m.(phones := Phones(xs[..n]))
    decreases n
  {
    if n == 0 {
      ms := before;
      assert pieces + PhoneFields(utf8, xs[..0]) == pieces;
      assert Phones(xs[..0]) == m.phones;
    } else {
      ms := PhonesLead(utf8, before, pieces, m, xs, n - 1);
      ms := PhoneLeadsOn(utf8, ms, pieces + PhoneFields(utf8, xs[..n - 1]), m, xs, n - 1);
      PhoneFieldsOneMore(utf8, pieces, xs, n - 1);
    }
  }

  lemma UserStarts(utf8: Utf8, x: PaddedUser) returns (ms: seq<User>)
    requires Storable(utf8, x.name) && Storable(utf8, x.email)
    ensures Leads(UserTurn(utf8), ms, [TextField(1, x.name), IntField(2, x.id), TextField(3, x.email)])
    ensures ms[0] == NO_USER && ms[3] == User(x.name, x.id, x.email, [])
  {
    var f := UserTurn(utf8);
    var m1 := NO_USER.(name := x.name);
    var m2 := m1.(id := x.id);
    var m3 := m2.(email := x.email);
    assert Runs(f, NO_USER, TextField(1, x.name), m1) by {
      TextRuns(f, utf8, NO_USER, 10, [], x.name, m1, (v: Text) => NO_USER.(name := v));
    }
    assert Runs(f, m1, IntField(2, x.id), m2) by {
      IntRuns(f, m1, 16, 0, x.id, m2, (v: i32) => m1.(id := v));
    }
    assert Runs(f, m2, TextField(3, x.email), m3) by {
      TextRuns(f, utf8, m2, 26, [], x.email, m3, (v: Text) => m2.(email := v));
    }
    ms := [NO_USER, m1, m2, m3];
  }

  lemma PaddedUserRuns(utf8: Utf8, x: PaddedUser)
    requires UserPadded(utf8, x)
    ensures Runs(UserTurn(utf8), NO_USER, UserBytes(utf8, x), PlainUser(x))
  {
    var three := [TextField(1, x.name), IntField(2, x.id), TextField(3, x.email)];
    var start := UserStarts(utf8, x);
    var ms := PhonesLead(utf8, start, three, User(x.name, x.id, x.email, []), x.phones, |x.phones|);
    assert x.phones[..|x.phones|] == x.phones;
    UserIgnores(utf8);
    WovenRuns(UserTurn(utf8), {10, 16, 26, 34}, 99, ms, UserPieces(utf8, x), x.pads);
  }

  lemma PaddedUserAppends(utf8: Utf8, m: Signin, x: PaddedUser)
    requires UserPadded(utf8, x)
    ensures Runs(SigninTurn(utf8), m, NestedField(1, UserBytes(utf8, x)), m.(users := m.users + [PlainUser(x)]))
  {
    PaddedUserRuns(utf8, x);
    NestedRuns(SigninTurn(utf8), UserTurn(utf8), NO_USER, m, 10, UserBytes(utf8, x), PlainUser(x),
               m.(users := m.users + [PlainUser(x)]), (v: User) => m.(users := m.users + [v]));
  }

  lemma {:induction false} UsersLead(utf8: Utf8, xs: seq<PaddedUser>) returns (ms: seq<Signin>)
    requires UsersPadded(utf8, xs)
    ensures Leads(SigninTurn(utf8), ms, UserFields(utf8, xs)) && ms[0] == NO_SIGNIN && ms[|xs|] == Signin(Users(xs))
  {
    if xs == [] {
      ms := [NO_SIGNIN];
    } else {
      var n := |xs| - 1;
      var front := UsersLead(utf8, xs[..n]);
      PaddedUserAppends(utf8, Signin(Users(xs[..n])), xs[n]);
      assert Users(xs[..n]) + [PlainUser(xs[n])] == Users(xs);
      LeadsOn(SigninTurn(utf8), front, UserFields(utf8, xs[..n]), NestedField(1, UserBytes(utf8, xs[n])),
              Signin(Users(xs)));
      ms := front + [Signin(Users(xs))];
    }
  }

  /**
    With unknown fields around the users, around the fields of each user and around the fields of
    each phone, a reqSignin parses to the users and phones it was made of.
   */
  lemma SigninAmongUnknown(utf8: Utf8, x: PaddedSignin)
    requires UsersPadded(utf8, x.users) && |x.pads| == 1 + |x.users| && AllForeign(x.pads, {10}, 100)
    ensures ParseSignin(utf8, Woven(UserFields(utf8, x.users), x.pads)) == Parsed(true, Signin(Users(x.users)))
  {
    var ms := UsersLead(utf8, x.users);
    SigninIgnores(utf8);
    WovenRuns(SigninTurn(utf8), {10}, 100, ms, UserFields(utf8, x.users), x.pads);
    RunsWhole(SigninTurn(utf8), NO_SIGNIN, Woven(UserFields(utf8, x.users), x.pads), Signin(Users(x.users)));
  }
}
