/**
  The converse: every printed tree is accepted with the request it denotes. So the parser's
  language is the grammar's, no accepted input is a proper prefix of another, requests print
  and parse back, and a verdict comes at the first byte that decides it.
 */
module RequestLanguage {
  import opened Bytes
  import opened RequestParser
  import opened RequestGrammar

  /** Reading all of a takes the parser from (st, r) to (st', r') without a verdict. */
  predicate Reads(st: State, r: Request, a: seq<byte>, st': State, r': Request)
  {
    && Consistent(st, r) && Consistent(st', r')
    && Parse(st, r, a) == Outcome(st', r', Indeterminate, |a|)
  }

  lemma ReadsThen(st: State, r: Request, a: seq<byte>, st': State, r': Request, b: seq<byte>, st'': State, r'': Request)
    requires Reads(st, r, a, st', r') && Reads(st', r', b, st'', r'')
    ensures Reads(st, r, a + b, st'', r'')
  {
    ParseInTwo(st, r, a, b);
  }

  lemma ReadsByte(st: State, r: Request, c: byte)
    requires Consistent(st, r) && Consume(st, r, c).result.Indeterminate?
    ensures Reads(st, r, [c], Consume(st, r, c).st, Consume(st, r, c).req)
  {
    assert [c][1..] == [];
  }

  /** Reading one byte more. */
  lemma ReadsMore(st: State, r: Request, a: seq<byte>, st': State, r': Request, c: byte)
    requires Reads(st, r, a, st', r') && Consume(st', r', c).result.Indeterminate?
    ensures Reads(st, r, a + [c], Consume(st', r', c).st, Consume(st', r', c).req)
  {
    ReadsByte(st', r', c);
    ReadsThen(st, r, a, st', r', [c], Consume(st', r', c).st, Consume(st', r', c).req);
  }

  lemma TokenIsNoSpace(c: byte)
    requires IsToken(c)
    ensures c != SP && c != COLON && c != CR && !IsBlank(c)
  {
    assert IsTspecial(SP) && IsTspecial(COLON) && IsTspecial(TAB) && IsCtl(CR);
  }

  // ---------------------------------------------------------------- the loops

  lemma {:induction false} ReadsVerb(r: Request, s: seq<byte>)
    requires Tokens(s)
    ensures Reads(Method, r, s, Method, r.(verb := r.verb + s))
  {
    if s == [] {
      assert r.verb + s == r.verb;
    } else {
      var c, p := Last(s), Front(s);
      ReadsVerb(r, p);
      assert s == p + [c] && r.verb + s == r.verb + p + [c];
      TokenIsNoSpace(c);
      ReadsMore(Method, r, p, Method, r.(verb := r.verb + p), c);
    }
  }

  lemma {:induction false} ReadsUri(r: Request, s: seq<byte>)
    requires UriChars(s)
    ensures Reads(Uri, r, s, Uri, r.(uri := r.uri + s))
  {
    if s == [] {
      assert r.uri + s == r.uri;
    } else {
      var c, p := Last(s), Front(s);
      ReadsUri(r, p);
      assert s == p + [c] && r.uri + s == r.uri + p + [c];
      ReadsMore(Uri, r, p, Uri, r.(uri := r.uri + p), c);
    }
  }

  lemma {:induction false} ReadsMajor(r: Request, s: seq<byte>)
    requires Digits(s) && r.major == 0 && s != []
    ensures Reads(MajorStart, r, s, Major, r.(major := Number(s)))
  {
    var c, p := Last(s), Front(s);
    assert s == p + [c];
    if p == [] {
      ReadsByte(MajorStart, r, c);
    } else {
      ReadsMajor(r, p);
      ReadsMore(MajorStart, r, p, Major, r.(major := Number(p)), c);
    }
  }

  lemma {:induction false} ReadsMinor(r: Request, s: seq<byte>)
    requires Digits(s) && r.minor == 0 && s != []
    ensures Reads(MinorStart, r, s, Minor, r.(minor := Number(s)))
  {
    var c, p := Last(s), Front(s);
    assert s == p + [c];
    if p == [] {
      ReadsByte(MinorStart, r, c);
    } else {
      ReadsMinor(r, p);
      ReadsMore(MinorStart, r, p, Minor, r.(minor := Number(p)), c);
    }
  }

  lemma {:induction false} ReadsName(r: Request, hs: seq<Header>, n: seq<byte>, s: seq<byte>)
    requires Tokens(s) && r.headers == hs + [Header(n, [])]
    ensures Reads(Name, r, s, Name, r.(headers := hs + [Header(n + s, [])]))
  {
    if s == [] {
      assert n + s == n;
    } else {
      var c, p := Last(s), Front(s);
      ReadsName(r, hs, n, p);
      assert s == p + [c] && n + s == n + p + [c];
      TokenIsNoSpace(c);
      ReadsMore(Name, r, p, Name, r.(headers := hs + [Header(n + p, [])]), c);
    }
  }

  lemma {:induction false} ReadsValue(r: Request, hs: seq<Header>, h: Header, s: seq<byte>)
    requires TextChars(s) && r.headers == hs + [h]
    ensures Reads(Value, r, s, Value, r.(headers := hs + [h.(value := h.value + s)]))
  {
    if s == [] {
      assert h.value + s == h.value;
    } else {
      var c, p := Last(s), Front(s);
      ReadsValue(r, hs, h, p);
      assert s == p + [c] && h.value + s == h.value + p + [c];
      ReadsMore(Value, r, p, Value, r.(headers := hs + [h.(value := h.value + p)]), c);
    }
  }

  lemma {:induction false} ReadsBlanks(r: Request, s: seq<byte>)
    requires Blanks(s) && r.headers != []
    ensures Reads(Lws, r, s, Lws, r)
  {
    if s != [] {
      var c, p := Last(s), Front(s);
      ReadsBlanks(r, p);
      assert s == p + [c];
      ReadsMore(Lws, r, p, Lws, r, c);
    }
  }

  // ---------------------------------------------------------------- header lines

  /** The line end that closes a header. */
  lemma ReadsEnd(st: State, r: Request)
    requires (st.Value? || st.Lws?) && r.headers != []
    ensures Reads(st, r, CRLF, LineStart, r)
  {
    ReadsByte(st, r, CR);
    ReadsMore(st, r, [CR], Newline2, r, LF);
    assert CRLF == [CR] + [LF];
  }

  /** A line end, and then a continuation's blanks. */
  lemma ReadsBreak(st: State, r: Request, blanks: seq<byte>)
    requires (st.Value? || st.Lws?) && r.headers != [] && blanks != [] && Blanks(blanks)
    ensures Reads(st, r, CRLF + blanks, Lws, r)
  {
    ReadsEnd(st, r);
    ReadsMore(st, r, CRLF, LineStart, r, blanks[0]);
    ReadsBlanks(r, blanks[1..]);
    assert CRLF + blanks == CRLF + [blanks[0]] + blanks[1..];
    ReadsThen(st, r, CRLF + [blanks[0]], Lws, r, blanks[1..], Lws, r);
  }

  /** A continuation's text, after its blanks. */
  lemma ReadsFoldText(r: Request, hs: seq<Header>, h: Header, text: seq<byte>)
    requires r.headers == hs + [h] && TextChars(text) && (text != [] ==> !IsBlank(text[0]))
    ensures Reads(Lws, r, text, if text == [] then Lws else Value, r.(headers := hs + [h.(value := h.value + text)]))
  {
    if text == [] {
      assert h.value + text == h.value;
    } else {
      var g := h.(value := h.value + [text[0]]);
      ReadsByte(Lws, r, text[0]);
      ReadsValue(r.(headers := hs + [g]), hs, g, text[1..]);
      assert text == [text[0]] + text[1..] && h.value + text == g.value + text[1..];
      ReadsThen(Lws, r, [text[0]], Value, r.(headers := hs + [g]), text[1..],
                Value, r.(headers := hs + [h.(value := h.value + text)]));
    }
  }

  function AfterFolds(fs: seq<Fold>): State { if fs != [] && Last(fs).text == [] then Lws else Value }

  lemma {:induction false} ReadsFolds(r: Request, hs: seq<Header>, h: Header, fs: seq<Fold>)
    requires r.headers == hs + [h] && (forall i :: 0 <= i < |fs| ==> FoldOk(fs[i]))
    ensures Reads(Value, r, PrintFolds(fs), AfterFolds(fs), r.(headers := hs + [h.(value := h.value + Texts(fs))]))
  {
    if fs == [] {
      assert h.value + Texts(fs) == h.value;
    } else {
      var p, f := Front(fs), Last(fs);
      ReadsFolds(r, hs, h, p);
      var g := h.(value := h.value + Texts(p));
      var r' := r.(headers := hs + [g]);
      ReadsBreak(AfterFolds(p), r', f.blanks);
      ReadsFoldText(r', hs, g, f.text);
      var r'' := r.(headers := hs + [g.(value := g.value + f.text)]);
      assert g.value + f.text == h.value + Texts(fs);
      ReadsThen(AfterFolds(p), r', CRLF + f.blanks, Lws, r', f.text, AfterFolds(fs), r'');
      ReadsThen(Value, r, PrintFolds(p), AfterFolds(p), r', PrintFold(f), AfterFolds(fs), r'');
    }
  }

  lemma ReadsWholeName(r: Request, name: seq<byte>)
    requires name != [] && Tokens(name)
    ensures Reads(LineStart, r, name, Name, r.(headers := r.headers + [Header(name, [])]))
  {
    var r' := r.(headers := r.headers + [Header([name[0]], [])]);
    TokenIsNoSpace(name[0]);
    ReadsByte(LineStart, r, name[0]);
    ReadsName(r', r.headers, [name[0]], name[1..]);
    assert name == [name[0]] + name[1..];
    ReadsThen(LineStart, r, [name[0]], Name, r', name[1..], Name, r.(headers := r.headers + [Header(name, [])]));
  }

  /** A header's name, the colon and the space. */
  lemma ReadsNamed(r: Request, name: seq<byte>)
    requires name != [] && Tokens(name)
    ensures Reads(LineStart, r, name + [COLON, SP], Value, r.(headers := r.headers + [Header(name, [])]))
  {
    var r' := r.(headers := r.headers + [Header(name, [])]);
    ReadsWholeName(r, name);
    ReadsMore(LineStart, r, name, Name, r', COLON);
    ReadsMore(LineStart, r, name + [COLON], SpaceBeforeValue, r', SP);
    assert name + [COLON] + [SP] == name + [COLON, SP];
  }

  lemma ReadsFirst(r: Request, l: Line)
    requires LineOk(l)
    ensures Reads(LineStart, r, l.name + [COLON, SP] + l.value, Value,
                  r.(headers := r.headers + [Header(l.name, l.value)]))
  {
    var r' := r.(headers := r.headers + [Header(l.name, [])]);
    ReadsNamed(r, l.name);
    assert [] + l.value == l.value;
    ReadsValue(r', r.headers, Header(l.name, []), l.value);
    ReadsThen(LineStart, r, l.name + [COLON, SP], Value, r', l.value,
              Value, r.(headers := r.headers + [Header(l.name, l.value)]));
  }

  lemma ReadsOpenLine(r: Request, l: Line)
    requires LineOk(l)
    ensures Reads(LineStart, r, OpenLine(l), AfterFolds(l.folds), r.(headers := r.headers + [DenoteLine(l)]))
  {
    var g := Header(l.name, l.value);
    var r' := r.(headers := r.headers + [g]);
    ReadsFirst(r, l);
    ReadsFolds(r', r.headers, g, l.folds);
    ReadsThen(LineStart, r, l.name + [COLON, SP] + l.value, Value, r', PrintFolds(l.folds),
              AfterFolds(l.folds), r.(headers := r.headers + [DenoteLine(l)]));
  }

  lemma ReadsLine(r: Request, l: Line)
    requires LineOk(l)
    ensures Reads(LineStart, r, PrintLine(l), LineStart, r.(headers := r.headers + [DenoteLine(l)]))
  {
    var r' := r.(headers := r.headers + [DenoteLine(l)]);
    ReadsOpenLine(r, l);
    ReadsEnd(AfterFolds(l.folds), r');
    ReadsThen(LineStart, r, OpenLine(l), AfterFolds(l.folds), r', CRLF, LineStart, r');
  }

  lemma {:induction false} ReadsLines(r: Request, ls: seq<Line>)
    requires forall i :: 0 <= i < |ls| ==> LineOk(ls[i])
    ensures Reads(LineStart, r, PrintLines(ls), LineStart, r.(headers := r.headers + DenoteLines(ls)))
  {
    if ls == [] {
      assert r.headers + DenoteLines(ls) == r.headers;
    } else {
      var p, l := Front(ls), Last(ls);
      ReadsLines(r, p);
      var r' := r.(headers := r.headers + DenoteLines(p));
      ReadsLine(r', l);
      assert r.headers + DenoteLines(ls) == r'.headers + [DenoteLine(l)];
      ReadsThen(LineStart, r, PrintLines(p), LineStart, r', PrintLine(l),
                LineStart, r.(headers := r.headers + DenoteLines(ls)));
    }
  }

  // ---------------------------------------------------------------- the request line

  lemma ReadsTarget(r: Request, t: Tree)
    requires TreeOk(t) && Blank(r)
    ensures Reads(MethodStart, r, Target(t), VersionH, r.(verb := t.verb, uri := t.uri))
  {
    var v := t.verb;
    var r0, r1 := r.(verb := [v[0]]), r.(verb := v);
    ReadsByte(MethodStart, r, v[0]);
    ReadsVerb(r0, v[1..]);
    assert v == [v[0]] + v[1..] && [] + [v[0]] == [v[0]];
    ReadsThen(MethodStart, r, [v[0]], Method, r0, v[1..], Method, r1);
    ReadsMore(MethodStart, r, v, Method, r1, SP);
    ReadsUri(r1, t.uri);
    assert [] + t.uri == t.uri;
    var r2 := r1.(uri := t.uri);
    ReadsThen(MethodStart, r, v + [SP], Uri, r1, t.uri, Uri, r2);
    ReadsMore(MethodStart, r, v + [SP] + t.uri, Uri, r2, SP);
  }

  lemma ReadsHttp(r: Request)
    ensures Reads(VersionH, r, HTTP, MajorStart, r.(major := 0, minor := 0))
  {
    ReadsByte(VersionH, r, 72);
    ReadsMore(VersionH, r, [72], VersionT1, r, 84);
    ReadsMore(VersionH, r, [72] + [84], VersionT2, r, 84);
    ReadsMore(VersionH, r, [72] + [84] + [84], VersionP, r, 80);
    ReadsMore(VersionH, r, [72] + [84] + [84] + [80], VersionSlash, r, SLASH);
    assert [72] + [84] + [84] + [80] + [SLASH] == HTTP;
  }

  /** The version numbers and the line's end. */
  lemma ReadsVersion(r: Request, t: Tree)
    requires TreeOk(t) && r.major == 0 && r.minor == 0
    ensures Reads(MajorStart, r, t.major + [DOT] + t.minor + CRLF, LineStart,
                  r.(major := Number(t.major), minor := Number(t.minor)))
  {
    var r1 := r.(major := Number(t.major));
    var r2 := r1.(minor := Number(t.minor));
    var a := t.major + [DOT];
    ReadsMajor(r, t.major);
    ReadsMore(MajorStart, r, t.major, Major, r1, DOT);
    ReadsMinor(r1, t.minor);
    ReadsThen(MajorStart, r, a, MinorStart, r1, t.minor, Minor, r2);
    ReadsMore(MajorStart, r, a + t.minor, Minor, r2, CR);
    ReadsMore(MajorStart, r, a + t.minor + [CR], Newline1, r2, LF);
    assert a + t.minor + [CR] + [LF] == a + t.minor + CRLF;
  }

  lemma ReadsRequestLine(r: Request, t: Tree)
    requires TreeOk(t) && Blank(r)
    ensures Reads(MethodStart, r, RequestLine(t), LineStart, Meaning(t).(headers := []))
  {
    var r1 := r.(verb := t.verb, uri := t.uri);
    var r2 := r1.(major := 0, minor := 0);
    var v := t.major + [DOT] + t.minor + CRLF;
    ReadsTarget(r, t);
    ReadsHttp(r1);
    ReadsThen(MethodStart, r, Target(t), VersionH, r1, HTTP, MajorStart, r2);
    ReadsVersion(r2, t);
    ReadsThen(MethodStart, r, Target(t) + HTTP, MajorStart, r2, v, LineStart, Meaning(t).(headers := []));
    assert Target(t) + HTTP + v == RequestLine(t);
  }

  // ---------------------------------------------------------------- the language

  lemma ReadsHeaders(r: Request, t: Tree)
    requires Blank(r) && TreeOk(t)
    ensures Reads(MethodStart, r, RequestLine(t) + PrintLines(t.lines), LineStart, Meaning(t))
  {
    var r' := Meaning(t).(headers := []);
    ReadsRequestLine(r, t);
    ReadsLines(r', t.lines);
    assert [] + DenoteLines(t.lines) == DenoteLines(t.lines);
    ReadsThen(MethodStart, r, RequestLine(t), LineStart, r', PrintLines(t.lines), LineStart, Meaning(t));
  }

  lemma AcceptsEnd(r: Request, rest: seq<byte>)
    ensures Parse(LineStart, r, CRLF + rest) == Outcome(Newline3, r, Good, 2)
  {
    assert (CRLF + rest)[1..] == [LF] + rest;
  }

  /** Every printed tree is accepted, with the denoted request, and nothing after it is consumed. */
  lemma PrintedIsAccepted(r: Request, t: Tree, rest: seq<byte>)
    requires Blank(r) && TreeOk(t)
    ensures Parse(MethodStart, r, Print(t) + rest) == Outcome(Newline3, Meaning(t), Good, |Print(t)|)
  {
    var p := RequestLine(t) + PrintLines(t.lines);
    ReadsHeaders(r, t);
    AcceptsEnd(Meaning(t), rest);
    ParseInTwo(MethodStart, r, p, CRLF + rest);
    assert Print(t) + rest == p + (CRLF + rest);
  }

  predicate Heads(t: Tree, s: seq<byte>) { TreeOk(t) && Print(t) <= s }

  /** The parser accepts exactly the inputs that start with a printed tree. */
  lemma LanguageIsGrammar(r: Request, s: seq<byte>)
    requires Blank(r)
    ensures Parse(MethodStart, r, s).result.Good? <==> exists t :: Heads(t, s)
    ensures forall t | Heads(t, s) :: Parse(MethodStart, r, s) == Outcome(Newline3, Meaning(t), Good, |Print(t)|)
  {
    if Parse(MethodStart, r, s).result.Good? {
      var t := AcceptedIsPrinted(r, s);
      assert Heads(t, s);
    }
    forall t | Heads(t, s)
      ensures Parse(MethodStart, r, s) == Outcome(Newline3, Meaning(t), Good, |Print(t)|)
    {
      assert s == Print(t) + s[|Print(t)|..];
      PrintedIsAccepted(r, t, s[|Print(t)|..]);
    }
  }

  /** No request is a proper prefix of another, and the bytes fix what they denote. */
  lemma PrefixFree(t: Tree, u: Tree)
    requires TreeOk(t) && TreeOk(u) && Print(t) <= Print(u)
    ensures Print(t) == Print(u) && Meaning(t) == Meaning(u)
  {
    LanguageIsGrammar(NO_REQUEST, Print(u));
    assert Heads(t, Print(u)) && Heads(u, Print(u));
  }

  // ---------------------------------------------------------------- the earliest verdict

  /** A byte on the shortest way from a state to acceptance, and where it leads. */
  function Hint(st: State): (byte, State)
  {
    match st
    case MethodStart => (71, Method)
    case Method => (SP, Uri)
    case Uri => (SP, VersionH)
    case VersionH => (72, VersionT1)
    case VersionT1 => (84, VersionT2)
    case VersionT2 => (84, VersionP)
    case VersionP => (80, VersionSlash)
    case VersionSlash => (SLASH, MajorStart)
    case MajorStart => (48, Major)
    case Major => (DOT, MinorStart)
    case MinorStart => (48, Minor)
    case Minor => (CR, Newline1)
    case Newline1 => (LF, LineStart)
    case Name => (COLON, SpaceBeforeValue)
    case SpaceBeforeValue => (SP, Value)
    case Value => (CR, Newline2)
    case Lws => (CR, Newline2)
    case Newline2 => (LF, LineStart)
    case LineStart => (CR, Newline3)
    case Newline3 => (LF, Newline3)
  }

  function Left(st: State): nat
  {
    match st
    case MethodStart => 14
    case Method => 13
    case Uri => 12
    case VersionH => 11
    case VersionT1 => 10
    case VersionT2 => 9
    case VersionP => 8
    case VersionSlash => 7
    case MajorStart => 6
    case Major => 5
    case MinorStart => 4
    case Minor => 3
    case Newline1 => 2
    case Name => 5
    case SpaceBeforeValue => 4
    case Value => 3
    case Lws => 3
    case Newline2 => 2
    case LineStart => 1
    case Newline3 => 0
  }

  /** From every state some input is accepted. */
  lemma {:induction false} CanComplete(st: State, r: Request) returns (e: seq<byte>)
    requires Consistent(st, r)
    ensures Parse(st, r, e).result.Good?
    decreases Left(st)
  {
    var (c, next) := Hint(st);
    if st.Newline3? {
      e := [c];
    } else {
      var x := Consume(st, r, c);
      assert x.result.Indeterminate? && x.st == next;
      var e' := CanComplete(x.st, x.req);
      e := [c] + e';
      assert e[1..] == e';
    }
  }

  /** s can still become a request. */
  ghost predicate Viable(r: Request, s: seq<byte>)
  {
    exists e :: Parse(MethodStart, r, s + e).result.Good?
  }

  /** An input is refused exactly when no continuation of it would be accepted. */
  lemma RefusedAsSoonAsHopeless(r: Request, s: seq<byte>)
    ensures Parse(MethodStart, r, s).result.Bad? <==> !Viable(r, s)
  {
    var o := Parse(MethodStart, r, s);
    if o.result.Bad? {
      forall e ensures !Parse(MethodStart, r, s + e).result.Good? { ParseInTwo(MethodStart, r, s, e); }
    } else if o.result.Good? {
      ParseInTwo(MethodStart, r, s, []);
    } else {
      var e := CanComplete(o.st, o.req);
      ParseInTwo(MethodStart, r, s, e);
    }
  }

  // ---------------------------------------------------------------- printing a request

  /** What the parser guarantees of a request it hands on. */
  predicate RequestOk(r: Request)
  {
    && r.verb != [] && Tokens(r.verb) && UriChars(r.uri)
    && (forall i :: 0 <= i < |r.headers| ==> HeaderOk(r.headers[i]))
  }

  predicate HeaderOk(h: Header) { h.name != [] && Tokens(h.name) && TextChars(h.value) }

  function Decimal(n: nat): seq<byte>
  {
    if n < 10 then [(48 + n) as byte] else Decimal(n / 10) + [(48 + n % 10) as byte]
  }

  function TreeOf(r: Request): Tree
  {
    Tree(r.verb, r.uri, Decimal(r.major), Decimal(r.minor),
         seq(|r.headers|, i requires 0 <= i < |r.headers| => Line(r.headers[i].name, r.headers[i].value, [])))
  }

  lemma {:induction false} DecimalReads(n: nat)
    ensures Decimal(n) != [] && Digits(Decimal(n)) && Number(Decimal(n)) == n
  {
    if n >= 10 {
      DecimalReads(n / 10);
      assert Front(Decimal(n)) == Decimal(n / 10);
    }
  }

  lemma TreeOfMeans(r: Request)
    requires RequestOk(r)
    ensures TreeOk(TreeOf(r)) && Meaning(TreeOf(r)) == r
  {
    var t := TreeOf(r);
    DecimalReads(r.major);
    DecimalReads(r.minor);
    forall i | 0 <= i < |r.headers|
      ensures LineOk(t.lines[i]) && DenoteLine(t.lines[i]) == r.headers[i]
    {
      assert HeaderOk(r.headers[i]);
    }
    assert DenoteLines(t.lines) == r.headers;
  }

  /** A request printed in the plain form parses back to itself, whatever follows it. */
  lemma RequestRoundTrip(blank: Request, r: Request, rest: seq<byte>)
    requires Blank(blank) && RequestOk(r)
    ensures Parse(MethodStart, blank, Print(TreeOf(r)) + rest) == Outcome(Newline3, r, Good, |Print(TreeOf(r))|)
  {
    TreeOfMeans(r);
    PrintedIsAccepted(blank, TreeOf(r), rest);
  }

  lemma {:induction false} TextsAreText(fs: seq<Fold>)
    requires forall i :: 0 <= i < |fs| ==> FoldOk(fs[i])
    ensures TextChars(Texts(fs))
  {
    if fs != [] { TextsAreText(Front(fs)); }
  }

  /** And the parser hands on no other requests than those. */
  lemma HandedOnIsOk(blank: Request, s: seq<byte>)
    requires Blank(blank) && Parse(MethodStart, blank, s).result.Good?
    ensures RequestOk(Parse(MethodStart, blank, s).req)
  {
    var t := AcceptedIsPrinted(blank, s);
    forall i | 0 <= i < |t.lines| ensures HeaderOk(DenoteLine(t.lines[i])) { TextsAreText(t.lines[i].folds); }
  }
}
