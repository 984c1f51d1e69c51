/**
  What the request parser accepts, as a grammar in the manner of sections 4.2 and 5.1 of
  RFC 1945: derivation trees, the bytes they print and the request they denote. The automaton
  accepts exactly the printed trees, and builds the denoted request.
 */
module RequestGrammar {
  import opened Bytes
  import opened RequestParser

  /** A continuation line: blanks, then text that does not start with one. */
  datatype Fold = Fold(blanks: seq<byte>, text: seq<byte>)

  datatype Line = Line(name: seq<byte>, value: seq<byte>, folds: seq<Fold>)

  datatype Tree = Tree(verb: seq<byte>, uri: seq<byte>, major: seq<byte>, minor: seq<byte>, lines: seq<Line>)

  const NO_TREE := Tree([], [], [], [], [])

  // ---------------------------------------------------------------- the characters

  /** The token characters of section 2.2 of RFC 1945, listed: exactly those the parser's classes leave. */
  predicate TokenChar(c: byte): (r: bool)
    ensures r <==> IsToken(c)
  {
    || 'a' as int <= c <= 'z' as int
    || 'A' as int <= c <= 'Z' as int
    || '0' as int <= c <= '9' as int
    || c == '!' as int || c == '#' as int || c == '$' as int || c == '%' as int || c == '&' as int
    || c == '\'' as int || c == '*' as int || c == '+' as int || c == '-' as int || c == '.' as int
    || c == '^' as int || c == '_' as int || c == '`' as int || c == '|' as int || c == '~' as int
  }

  /** All but the control characters 0 to 31 and 127. */
  predicate TextChar(c: byte): (r: bool)
    ensures r <==> !IsCtl(c)
  {
    32 <= c <= 126 || 128 <= c
  }

  predicate DigitChar(c: byte): (r: bool)
    ensures r <==> IsDigit(c)
  {
    '0' as int <= c <= '9' as int
  }

  // ---------------------------------------------------------------- well-formed trees

  predicate Tokens(s: seq<byte>) { forall i :: 0 <= i < |s| ==> TokenChar(s[i]) }
  predicate Digits(s: seq<byte>) { forall i :: 0 <= i < |s| ==> DigitChar(s[i]) }
  predicate Blanks(s: seq<byte>) { forall i :: 0 <= i < |s| ==> s[i] == 32 || s[i] == 9 }
  predicate TextChars(s: seq<byte>) { forall i :: 0 <= i < |s| ==> TextChar(s[i]) }
  predicate UriChars(s: seq<byte>) { forall i :: 0 <= i < |s| ==> TextChar(s[i]) && s[i] != 32 }

  predicate FoldOk(f: Fold)
  {
    && f.blanks != [] && Blanks(f.blanks) && TextChars(f.text)
    && (f.text != [] ==> f.text[0] != 32 && f.text[0] != 9)
  }

  predicate LineOk(l: Line)
  {
    && l.name != [] && Tokens(l.name) && TextChars(l.value)
    && (forall i :: 0 <= i < |l.folds| ==> FoldOk(l.folds[i]))
  }

  predicate TreeOk(t: Tree)
  {
    && t.verb != [] && Tokens(t.verb) && UriChars(t.uri)
    && t.major != [] && Digits(t.major) && t.minor != [] && Digits(t.minor)
    && (forall i :: 0 <= i < |t.lines| ==> LineOk(t.lines[i]))
  }

  // ---------------------------------------------------------------- the bytes

  const CRLF: seq<byte> := [13, 10]
  const HTTP: seq<byte> := [72, 84, 84, 80, 47]   // "HTTP/"

  function PrintFold(f: Fold): seq<byte> { CRLF + f.blanks + f.text }

  function PrintFolds(fs: seq<Fold>): seq<byte>
  {
    if fs == [] then [] else PrintFolds(fs[..|fs| - 1]) + PrintFold(fs[|fs| - 1])
  }

  /** A header line with its continuations, up to its last CRLF. */
  function OpenLine(l: Line): seq<byte> { l.name + [58, 32] + l.value + PrintFolds(l.folds) }

  function PrintLine(l: Line): seq<byte> { OpenLine(l) + CRLF }

  function PrintLines(ls: seq<Line>): seq<byte>
  {
    if ls == [] then [] else PrintLines(ls[..|ls| - 1]) + PrintLine(ls[|ls| - 1])
  }

  function Target(t: Tree): seq<byte> { t.verb + [32] + t.uri + [32] }

  function RequestLine(t: Tree): seq<byte> { Target(t) + HTTP + t.major + [46] + t.minor + CRLF }

  function Print(t: Tree): seq<byte> { RequestLine(t) + PrintLines(t.lines) + CRLF }

  // ---------------------------------------------------------------- the request

  function Digit(c: byte): nat { if DigitChar(c) then c as int - '0' as int else 0 }

  function Number(digits: seq<byte>): nat
  {
    if digits == [] then 0 else Number(digits[..|digits| - 1]) * 10 + Digit(digits[|digits| - 1])
  }

  function Texts(fs: seq<Fold>): seq<byte>
  {
    if fs == [] then [] else Texts(fs[..|fs| - 1]) + fs[|fs| - 1].text
  }

  /** A header's value is its own text and that of its continuations, their leading blanks dropped. */
  function DenoteLine(l: Line): Header { Header(l.name, l.value + Texts(l.folds)) }

  function DenoteLines(ls: seq<Line>): seq<Header> { seq(|ls|, i requires 0 <= i < |ls| => DenoteLine(ls[i])) }

  /** The request that a tree denotes. */
  function Meaning(t: Tree): Request
  {
    Request(t.verb, t.uri, Number(t.major), Number(t.minor), DenoteLines(t.lines))
  }

  // ---------------------------------------------------------------- what is refused

  /** The bytes that can stand next, by state. */
  predicate Allowed(st: State, req: Request, c: byte)
  {
    match st
    case MethodStart => TokenChar(c)
    case Method => TokenChar(c) || c == ' ' as int
    case Uri => TextChar(c)
    case VersionH => c == 'H' as int
    case VersionT1 => c == 'T' as int
    case VersionT2 => c == 'T' as int
    case VersionP => c == 'P' as int
    case VersionSlash => c == '/' as int
    case MajorStart => DigitChar(c)
    case Major => DigitChar(c) || c == '.' as int
    case MinorStart => DigitChar(c)
    case Minor => DigitChar(c) || c == '\r' as int
    case Newline1 => c == '\n' as int
    case LineStart => TokenChar(c) || c == '\r' as int || (req.headers != [] && (c == ' ' as int || c == '\t' as int))
    case Lws => TextChar(c) || c == '\t' as int || c == '\r' as int
    case Name => TokenChar(c) || c == ':' as int
    case SpaceBeforeValue => c == ' ' as int
    case Value => TextChar(c) || c == '\r' as int
    case Newline2 => c == '\n' as int
    case Newline3 => c == '\n' as int
  }

  /** Each state refuses exactly the bytes that cannot stand next. */
  lemma RefusesTheRest(st: State, req: Request, c: byte)
    requires Consistent(st, req)
    ensures Consume(st, req, c).result.Bad? <==> !Allowed(st, req, c)
    ensures Consume(st, req, c).result.Good? <==> st.Newline3? && c == 10
  {
  }

  // ---------------------------------------------------------------- everything accepted is printed

  function Last<T>(s: seq<T>): T
    requires s != []
  {
    s[|s| - 1]
  }

  function Front<T>(s: seq<T>): seq<T>
    requires s != []
  {
    s[..|s| - 1]
  }

  /** The bytes consumed so far, by where the parser stands in the tree. */
  function Shown(st: State, t: Tree): seq<byte>
  {
    match st
    case MethodStart => []
    case Method => t.verb
    case Uri => t.verb + [SP] + t.uri
    case VersionH => Target(t)
    case VersionT1 => Target(t) + HTTP[..1]
    case VersionT2 => Target(t) + HTTP[..2]
    case VersionP => Target(t) + HTTP[..3]
    case VersionSlash => Target(t) + HTTP[..4]
    case MajorStart => Target(t) + HTTP
    case Major => Target(t) + HTTP + t.major
    case MinorStart => Target(t) + HTTP + t.major + [DOT]
    case Minor => Target(t) + HTTP + t.major + [DOT] + t.minor
    case Newline1 => Target(t) + HTTP + t.major + [DOT] + t.minor + [CR]
    case LineStart => RequestLine(t) + PrintLines(t.lines)
    case Newline3 => RequestLine(t) + PrintLines(t.lines) + [CR]
    case Name => if t.lines == [] then [] else RequestLine(t) + PrintLines(Front(t.lines)) + Last(t.lines).name
    case SpaceBeforeValue =>
      if t.lines == [] then [] else RequestLine(t) + PrintLines(Front(t.lines)) + Last(t.lines).name + [COLON]
    case Lws => if t.lines == [] then [] else RequestLine(t) + PrintLines(Front(t.lines)) + OpenLine(Last(t.lines))
    case Value => if t.lines == [] then [] else RequestLine(t) + PrintLines(Front(t.lines)) + OpenLine(Last(t.lines))
    case Newline2 =>
      if t.lines == [] then [] else RequestLine(t) + PrintLines(Front(t.lines)) + OpenLine(Last(t.lines)) + [CR]
  }

  /** The part of the tree that is complete is well formed; the rest is not there yet. */
  predicate Growing(st: State, t: Tree)
  {
    && Tokens(t.verb) && UriChars(t.uri) && Digits(t.major) && Digits(t.minor)
    && (forall i :: 0 <= i < |t.lines| ==> LineOk(t.lines[i]))
    && (st.MethodStart? <==> t.verb == [])
    && (st.MethodStart? || st.Method? ==> t.uri == [])
    && (if Early(st) then t.major == [] else t.major != [])
    && (if Early(st) || st.Major? || st.MinorStart? then t.minor == [] else t.minor != [])
    && (Early(st) || st.Major? || st.MinorStart? || st.Minor? || st.Newline1? ==> t.lines == [])
    && (InHeader(st) ==> t.lines != [])
    && (st.Name? || st.SpaceBeforeValue? ==> Last(t.lines).value == [] && Last(t.lines).folds == [])
    && (st.Lws? ==> Last(t.lines).folds != [] && Last(Last(t.lines).folds).text == [])
    && (st.Value? && Last(t.lines).folds != [] ==> Last(Last(t.lines).folds).text != [])
  }

  predicate Early(st: State)
  {
    st.MethodStart? || st.Method? || st.Uri? || st.VersionH? || st.VersionT1? || st.VersionT2? || st.VersionP?
    || st.VersionSlash? || st.MajorStart?
  }

  /** Before the version, a request's numbers are not read. */
  predicate Matches(st: State, t: Tree, r: Request)
  {
    && r.verb == t.verb && r.uri == t.uri && r.headers == DenoteLines(t.lines)
    && (!Early(st) || st.MajorStart? ==> r.major == Number(t.major) && r.minor == Number(t.minor))
  }

  /** The tree after one more byte. */
  function Grow(st: State, t: Tree, c: byte): Tree
  {
    match st
    case MethodStart => t.(verb := t.verb + [c])
    case Method => if c == SP then t else t.(verb := t.verb + [c])
    case Uri => if c == SP then t else t.(uri := t.uri + [c])
    case MajorStart => t.(major := t.major + [c])
    case Major => if c == DOT then t else t.(major := t.major + [c])
    case MinorStart => t.(minor := t.minor + [c])
    case Minor => if c == CR then t else t.(minor := t.minor + [c])
    case LineStart =>
      if c == CR then t
      else if IsBlank(c) && t.lines != [] then Amend(t, AddFold(Last(t.lines), c))
      else t.(lines := t.lines + [Line([c], [], [])])
    case Name =>
      if c == COLON || t.lines == [] then t else Amend(t, Last(t.lines).(name := Last(t.lines).name + [c]))
    case Lws =>
      if c == CR || t.lines == [] then t
      else if IsBlank(c) then Amend(t, AddBlank(Last(t.lines), c))
      else Amend(t, AddText(Last(t.lines), c))
    case Value =>
      if c == CR || t.lines == [] then t else Amend(t, AddText(Last(t.lines), c))
    case _ => t
  }

  function Amend(t: Tree, l: Line): Tree
    requires t.lines != []
  {
    t.(lines := Front(t.lines) + [l])
  }

  function AddFold(l: Line, c: byte): Line { l.(folds := l.folds + [Fold([c], [])]) }

  function AddBlank(l: Line, c: byte): Line
  {
    if l.folds == [] then l
    else l.(folds := Front(l.folds) + [Last(l.folds).(blanks := Last(l.folds).blanks + [c])])
  }

  function AddText(l: Line, c: byte): Line
  {
    if l.folds == [] then l.(value := l.value + [c])
    else l.(folds := Front(l.folds) + [Last(l.folds).(text := Last(l.folds).text + [c])])
  }

  lemma AddTextShows(l: Line, c: byte)
    requires LineOk(l) && !IsCtl(c) && (l.folds != [] && Last(l.folds).text == [] ==> !IsBlank(c))
    ensures LineOk(AddText(l, c)) && OpenLine(AddText(l, c)) == OpenLine(l) + [c]
    ensures DenoteLine(AddText(l, c)) == DenoteLine(l).(value := DenoteLine(l).value + [c])
  {
    var m := AddText(l, c);
    if l.folds != [] {
      var f, g := Last(l.folds), Last(m.folds);
      assert Front(m.folds) == Front(l.folds);
      assert PrintFold(g) == PrintFold(f) + [c];
      assert PrintFolds(m.folds) == PrintFolds(l.folds) + [c];
      assert Texts(m.folds) == Texts(l.folds) + [c];
    }
  }

  lemma AddBlankShows(l: Line, c: byte)
    requires LineOk(l) && IsBlank(c) && l.folds != [] && Last(l.folds).text == []
    ensures var m := AddBlank(l, c);
            LineOk(m) && OpenLine(m) == OpenLine(l) + [c] && DenoteLine(m) == DenoteLine(l)
            && m.folds != [] && Last(m.folds).text == []
  {
    var m := AddBlank(l, c);
    var f, g := Last(l.folds), Last(m.folds);
    assert Front(m.folds) == Front(l.folds);
    assert PrintFold(g) == PrintFold(f) + [c];
    assert PrintFolds(m.folds) == PrintFolds(l.folds) + [c];
    assert Texts(m.folds) == Texts(l.folds);
  }

  lemma AddFoldShows(l: Line, c: byte)
    requires LineOk(l) && IsBlank(c)
    ensures LineOk(AddFold(l, c)) && OpenLine(AddFold(l, c)) == PrintLine(l) + [c]
    ensures DenoteLine(AddFold(l, c)) == DenoteLine(l)
  {
    var m := AddFold(l, c);
    assert Front(m.folds) == l.folds;
    assert PrintFold(Last(m.folds)) == CRLF + [c];
  }

  /** One byte that the parser takes: the tree grows by it, and still shows and denotes what was read. */
  ghost predicate Grows(st: State, t: Tree, r: Request, c: byte)
    requires Consistent(st, r)
  {
    var x := Consume(st, r, c);
    Growing(x.st, Grow(st, t, c)) && Matches(x.st, Grow(st, t, c), x.req)
    && Shown(x.st, Grow(st, t, c)) == Shown(st, t) + [c]
  }

  ghost predicate Taken(st: State, t: Tree, r: Request, c: byte)
  {
    Growing(st, t) && Matches(st, t, r) && Consistent(st, r) && Consume(st, r, c).result.Indeterminate?
  }

  lemma JoinOne(p: seq<byte>, a: seq<byte>, c: byte)
    ensures p + (a + [c]) == p + a + [c]
  {
  }

  lemma GrowTarget(st: State, t: Tree, r: Request, c: byte)
    requires Taken(st, t, r, c) && (st.MethodStart? || st.Method? || st.Uri?)
    ensures Grows(st, t, r, c)
  {
  }

  lemma GrowHttp(st: State, t: Tree, r: Request, c: byte)
    requires Taken(st, t, r, c) && (st.VersionH? || st.VersionT1? || st.VersionT2? || st.VersionP? || st.VersionSlash?)
    ensures Grows(st, t, r, c)
  {
  }

  lemma NumberGrows(digits: seq<byte>, c: byte)
    ensures Number(digits + [c]) == Number(digits) * 10 + Digit(c)
  {
    assert (digits + [c])[..|digits|] == digits;
  }

  lemma GrowMajorDigit(st: State, t: Tree, r: Request, c: byte)
    requires Taken(st, t, r, c) && (st.MajorStart? || st.Major?) && c != DOT
    ensures Grows(st, t, r, c)
  {
    NumberGrows(t.major, c);
    var u := Grow(st, t, c);
    assert Shown(Major, u) == Shown(st, t) + [c] by {
      assert Target(u) == Target(t);
      JoinOne(Target(t) + HTTP, t.major, c);
    }
  }

  lemma GrowMajorDot(t: Tree, r: Request, c: byte)
    requires Taken(Major, t, r, c) && c == DOT
    ensures Grows(Major, t, r, c)
  {
  }

  lemma GrowMinorDigit(st: State, t: Tree, r: Request, c: byte)
    requires Taken(st, t, r, c) && (st.MinorStart? || st.Minor?) && c != CR
    ensures Grows(st, t, r, c)
  {
    NumberGrows(t.minor, c);
    var u := Grow(st, t, c);
    assert Shown(Minor, u) == Shown(st, t) + [c] by {
      assert Target(u) == Target(t);
      JoinOne(Target(t) + HTTP + t.major + [DOT], t.minor, c);
    }
  }

  lemma GrowMinorEnd(t: Tree, r: Request, c: byte)
    requires Taken(Minor, t, r, c) && c == CR
    ensures Grows(Minor, t, r, c)
  {
  }

  lemma GrowVersion(st: State, t: Tree, r: Request, c: byte)
    requires Taken(st, t, r, c) && (st.MajorStart? || st.Major? || st.MinorStart? || st.Minor?)
    ensures Grows(st, t, r, c)
  {
    if st.Major? && c == DOT {
      GrowMajorDot(t, r, c);
    } else if st.Minor? && c == CR {
      GrowMinorEnd(t, r, c);
    } else if st.MajorStart? || st.Major? {
      GrowMajorDigit(st, t, r, c);
    } else {
      GrowMinorDigit(st, t, r, c);
    }
  }

  lemma GrowNewline1(t: Tree, r: Request, c: byte)
    requires Taken(Newline1, t, r, c)
    ensures Grows(Newline1, t, r, c)
  {
    var p := Target(t) + HTTP + t.major + [DOT] + t.minor;
    assert p + CRLF == p + [CR] + [c];
    assert RequestLine(t) + PrintLines([]) == RequestLine(t);
  }

  lemma GrowFold(t: Tree, r: Request, c: byte)
    requires Taken(LineStart, t, r, c) && c != CR && IsBlank(c) && t.lines != []
    ensures Grows(LineStart, t, r, c)
  {
    var u := Grow(LineStart, t, c);
    AddFoldShows(Last(t.lines), c);
    assert Front(u.lines) == Front(t.lines);
    var p := RequestLine(t) + PrintLines(Front(t.lines));
    assert RequestLine(t) + PrintLines(t.lines) == p + PrintLine(Last(t.lines));
    JoinOne(p, PrintLine(Last(t.lines)), c);
  }

  lemma GrowNewLine(t: Tree, r: Request, c: byte)
    requires Taken(LineStart, t, r, c) && c != CR && !(IsBlank(c) && t.lines != [])
    ensures Grows(LineStart, t, r, c)
  {
    var u := Grow(LineStart, t, c);
    assert Front(u.lines) == t.lines;
    assert DenoteLine(Last(u.lines)) == Header([c], []);
  }

  lemma GrowLineStart(t: Tree, r: Request, c: byte)
    requires Taken(LineStart, t, r, c)
    ensures Grows(LineStart, t, r, c)
  {
    if c != CR {
      if IsBlank(c) && t.lines != [] { GrowFold(t, r, c); } else { GrowNewLine(t, r, c); }
    }
  }

  lemma GrowName(t: Tree, r: Request, c: byte)
    requires Taken(Name, t, r, c)
    ensures Grows(Name, t, r, c)
  {
    var u, l := Grow(Name, t, c), Last(t.lines);
    assert Front(u.lines) == Front(t.lines);
    if c != COLON {
      JoinOne(RequestLine(t) + PrintLines(Front(t.lines)), l.name, c);
      assert DenoteLine(Last(u.lines)) == DenoteLine(l).(name := l.name + [c]);
    }
  }

  lemma GrowSpace(t: Tree, r: Request, c: byte)
    requires Taken(SpaceBeforeValue, t, r, c)
    ensures Grows(SpaceBeforeValue, t, r, c)
  {
    var l := Last(t.lines);
    var p := RequestLine(t) + PrintLines(Front(t.lines));
    assert OpenLine(l) == l.name + [COLON, SP];
    assert p + (l.name + [COLON, SP]) == p + l.name + [COLON] + [c];
  }

  lemma GrowLwsBlank(t: Tree, r: Request, c: byte)
    requires Taken(Lws, t, r, c) && IsBlank(c)
    ensures Grows(Lws, t, r, c)
  {
    assert Front(Grow(Lws, t, c).lines) == Front(t.lines);
    JoinOne(RequestLine(t) + PrintLines(Front(t.lines)), OpenLine(Last(t.lines)), c);
    AddBlankShows(Last(t.lines), c);
  }

  lemma GrowLwsText(t: Tree, r: Request, c: byte)
    requires Taken(Lws, t, r, c) && c != CR && !IsBlank(c)
    ensures Grows(Lws, t, r, c)
  {
    assert Front(Grow(Lws, t, c).lines) == Front(t.lines);
    JoinOne(RequestLine(t) + PrintLines(Front(t.lines)), OpenLine(Last(t.lines)), c);
    AddTextShows(Last(t.lines), c);
  }

  lemma GrowLws(t: Tree, r: Request, c: byte)
    requires Taken(Lws, t, r, c)
    ensures Grows(Lws, t, r, c)
  {
    if IsBlank(c) { GrowLwsBlank(t, r, c); } else if c != CR { GrowLwsText(t, r, c); }
  }

  lemma GrowValue(t: Tree, r: Request, c: byte)
    requires Taken(Value, t, r, c)
    ensures Grows(Value, t, r, c)
  {
    var u, l := Grow(Value, t, c), Last(t.lines);
    if c != CR {
      assert Front(u.lines) == Front(t.lines);
      JoinOne(RequestLine(t) + PrintLines(Front(t.lines)), OpenLine(l), c);
      AddTextShows(l, c);
    }
  }

  lemma GrowNewline(t: Tree, r: Request, c: byte)
    requires Taken(Newline2, t, r, c)
    ensures Grows(Newline2, t, r, c)
  {
  }

  lemma GrowAny(st: State, t: Tree, r: Request, c: byte)
    requires Taken(st, t, r, c)
    ensures Grows(st, t, r, c)
  {
    match st {
      case MethodStart => GrowTarget(st, t, r, c);
      case Method => GrowTarget(st, t, r, c);
      case Uri => GrowTarget(st, t, r, c);
      case LineStart => GrowLineStart(t, r, c);
      case Lws => GrowLws(t, r, c);
      case Name => GrowName(t, r, c);
      case SpaceBeforeValue => GrowSpace(t, r, c);
      case Value => GrowValue(t, r, c);
      case Newline2 => GrowNewline(t, r, c);
      case Newline3 =>
      case VersionH => GrowHttp(st, t, r, c);
      case VersionT1 => GrowHttp(st, t, r, c);
      case VersionT2 => GrowHttp(st, t, r, c);
      case VersionP => GrowHttp(st, t, r, c);
      case VersionSlash => GrowHttp(st, t, r, c);
      case MajorStart => GrowVersion(st, t, r, c);
      case Major => GrowVersion(st, t, r, c);
      case MinorStart => GrowVersion(st, t, r, c);
      case Minor => GrowVersion(st, t, r, c);
      case Newline1 => GrowNewline1(t, r, c);
    }
  }

  /** The last byte completes the tree. */
  lemma LastByte(st: State, t: Tree, r: Request, c: byte)
    requires Growing(st, t) && Matches(st, t, r) && Consistent(st, r) && Consume(st, r, c).result.Good?
    ensures TreeOk(t) && r == Meaning(t) && Print(t) == Shown(st, t) + [c] && Consume(st, r, c).req == r
  {
    var p := RequestLine(t) + PrintLines(t.lines);
    assert p + CRLF == p + [CR] + [c];
  }

  lemma OneMore(p: seq<byte>, s: seq<byte>, n: nat)
    requires n < |s|
    ensures p + s[..n + 1] == p + [s[0]] + s[1..][..n]
  {
  }

  lemma {:induction false} AcceptedFrom(st: State, t: Tree, r: Request, s: seq<byte>) returns (u: Tree)
    requires Growing(st, t) && Matches(st, t, r) && Consistent(st, r) && Parse(st, r, s).result.Good?
    ensures var o := Parse(st, r, s);
            TreeOk(u) && o.req == Meaning(u) && Print(u) == Shown(st, t) + s[..o.used]
    decreases |s|
  {
    var x := Consume(st, r, s[0]);
    if x.result.Good? {
      LastByte(st, t, r, s[0]);
      assert s[..1] == [s[0]];
      u := t;
    } else {
      GrowAny(st, t, r, s[0]);
      u := AcceptedFrom(x.st, Grow(st, t, s[0]), x.req, s[1..]);
      var n := Parse(x.st, x.req, s[1..]).used;
      OneMore(Shown(st, t), s, n);
    }
  }

  /** A request object as the connection hands it over: its version numbers are not yet set. */
  predicate Blank(r: Request) { r.verb == [] && r.uri == [] && r.headers == [] }

  /** Whatever the parser accepts derives from the grammar, and its request is the one denoted. */
  lemma AcceptedIsPrinted(r: Request, s: seq<byte>) returns (t: Tree)
    requires Blank(r) && Parse(MethodStart, r, s).result.Good?
    ensures var o := Parse(MethodStart, r, s);
            TreeOk(t) && o.req == Meaning(t) && Print(t) == s[..o.used]
  {
    t := AcceptedFrom(MethodStart, NO_TREE, r, s);
  }
}
