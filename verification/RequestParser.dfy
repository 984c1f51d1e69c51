/** The byte-at-a-time HTTP request parser: its character classes, its automaton and its driver loop. */
module RequestParser {
  import opened Bytes

  const SP: byte := 32
  const TAB: byte := 9
  const CR: byte := 13
  const LF: byte := 10
  const COLON: byte := 58
  const SLASH: byte := 47
  const DOT: byte := 46

  datatype Header = Header(name: seq<byte>, value: seq<byte>)

  datatype Request = Request(verb: seq<byte>, uri: seq<byte>, major: nat, minor: nat, headers: seq<Header>)

  const NO_REQUEST := Request([], [], 0, 0, [])

  datatype State =
    | MethodStart | Method | Uri
    | VersionH | VersionT1 | VersionT2 | VersionP | VersionSlash
    | MajorStart | Major | MinorStart | Minor | Newline1
    | LineStart | Lws | Name | SpaceBeforeValue | Value | Newline2 | Newline3

  datatype Result = Good | Bad | Indeterminate

  predicate IsChar(c: byte) { c <= 127 }

  predicate IsCtl(c: byte) { c <= 31 || c == 127 }

  predicate IsTspecial(c: byte)
  {
    || c == '(' as int || c == ')' as int || c == '<' as int || c == '>' as int || c == '@' as int
    || c == ',' as int || c == ';' as int || c == ':' as int || c == '\\' as int || c == '\"' as int
    || c == '/' as int || c == '[' as int || c == ']' as int || c == '?' as int || c == '=' as int
    || c == '{' as int || c == '}' as int || c == ' ' as int || c == '\t' as int
  }

  predicate IsDigit(c: byte) { 48 <= c <= 57 }

  predicate IsBlank(c: byte) { c == SP || c == TAB }

  predicate IsToken(c: byte) { IsChar(c) && !IsCtl(c) && !IsTspecial(c) }

  /** The states in which the parser writes to the last header. */
  predicate InHeader(st: State) { st.Lws? || st.Name? || st.SpaceBeforeValue? || st.Value? || st.Newline2? }

  predicate Consistent(st: State, req: Request) { InHeader(st) ==> req.headers != [] }

  datatype Step = Step(st: State, req: Request, result: Result)

  function Expect(st: State, req: Request, ok: bool, next: State): Step
  {
    if ok then Step(next, req, Indeterminate) else Step(st, req, Bad)
  }

  function PushName(req: Request, c: byte): Request
    requires req.headers != []
  {
    var n := |req.headers| - 1;
    req.(headers := req.headers[..n] + [req.headers[n].(name := req.headers[n].name + [c])])
  }

  function PushValue(req: Request, c: byte): Request
    requires req.headers != []
  {
    var n := |req.headers| - 1;
    req.(headers := req.headers[..n] + [req.headers[n].(value := req.headers[n].value + [c])])
  }

  /** request_parser::consume. A bad byte changes nothing. */
  function Consume(st: State, req: Request, c: byte): (r: Step)
    requires Consistent(st, req)
    ensures Consistent(r.st, r.req)
    ensures r.result.Bad? ==> r.st == st && r.req == req
  {
    match st
    case MethodStart => Expect(st, if IsToken(c) then req.(verb := req.verb + [c]) else req, IsToken(c), Method)
    case Method =>
      if c == SP then Step(Uri, req, Indeterminate)
      else Expect(st, if IsToken(c) then req.(verb := req.verb + [c]) else req, IsToken(c), Method)
    case Uri =>
      if c == SP then Step(VersionH, req, Indeterminate)
      else Expect(st, if !IsCtl(c) then req.(uri := req.uri + [c]) else req, !IsCtl(c), Uri)
    case VersionH => Expect(st, req, c == 72, VersionT1)
    case VersionT1 => Expect(st, req, c == 84, VersionT2)
    case VersionT2 => Expect(st, req, c == 84, VersionP)
    case VersionP => Expect(st, req, c == 80, VersionSlash)
    case VersionSlash => Expect(st, if c == SLASH then req.(major := 0, minor := 0) else req, c == SLASH, MajorStart)
    case MajorStart =>
      Expect(st, if IsDigit(c) then req.(major := req.major * 10 + c - 48) else req, IsDigit(c), Major)
    case Major =>
      if c == DOT then Step(MinorStart, req, Indeterminate)
      else Expect(st, if IsDigit(c) then req.(major := req.major * 10 + c - 48) else req, IsDigit(c), Major)
    case MinorStart =>
      Expect(st, if IsDigit(c) then req.(minor := req.minor * 10 + c - 48) else req, IsDigit(c), Minor)
    case Minor =>
      if c == CR then Step(Newline1, req, Indeterminate)
      else Expect(st, if IsDigit(c) then req.(minor := req.minor * 10 + c - 48) else req, IsDigit(c), Minor)
    case Newline1 => Expect(st, req, c == LF, LineStart)
    case LineStart =>
      if c == CR then Step(Newline3, req, Indeterminate)
      else if req.headers != [] && IsBlank(c) then Step(Lws, req, Indeterminate)
      else if IsToken(c) then Step(Name, req.(headers := req.headers + [Header([c], [])]), Indeterminate)
      else Step(st, req, Bad)
    case Lws =>
      if c == CR then Step(Newline2, req, Indeterminate)
      else if IsBlank(c) then Step(Lws, req, Indeterminate)
      else if IsCtl(c) then Step(st, req, Bad)
      else Step(Value, PushValue(req, c), Indeterminate)
    case Name =>
      if c == COLON then Step(SpaceBeforeValue, req, Indeterminate)
      else if IsToken(c) then Step(Name, PushName(req, c), Indeterminate)
      else Step(st, req, Bad)
    case SpaceBeforeValue => Expect(st, req, c == SP, Value)
    case Value =>
      if c == CR then Step(Newline2, req, Indeterminate)
      else if IsCtl(c) then Step(st, req, Bad)
      else Step(Value, PushValue(req, c), Indeterminate)
    case Newline2 => Expect(st, req, c == LF, LineStart)
    case Newline3 => Step(st, req, if c == LF then Good else Bad)
  }

  /** What parse returns and leaves behind, with the number of bytes it consumed. */
  datatype Outcome = Outcome(st: State, req: Request, result: Result, used: nat)

  /** parse: consume bytes until one decides, or they run out. */
  function Parse(st: State, req: Request, s: seq<byte>): (o: Outcome)
    requires Consistent(st, req)
    ensures Consistent(o.st, o.req) && o.used <= |s|
    ensures o.result.Indeterminate? ==> o.used == |s|
    decreases |s|
  {
    if s == [] then Outcome(st, req, Indeterminate, 0)
    else
      var r := Consume(st, req, s[0]);
      if !r.result.Indeterminate? then Outcome(r.st, r.req, r.result, 1)
      else
        var o := Parse(r.st, r.req, s[1..]);
        o.(used := o.used + 1)
  }

  // ---------------------------------------------------------------- chunks

  /** o goes on from an outcome that had used n bytes before it. */
  function After(n: nat, o: Outcome): Outcome { o.(used := n + o.used) }

  /** Parsing in two pieces is parsing the whole; a decided parse ignores what follows. */
  lemma {:induction false} ParseInTwo(st: State, req: Request, a: seq<byte>, b: seq<byte>)
    requires Consistent(st, req)
    ensures var o := Parse(st, req, a);
            Parse(st, req, a + b) == if o.result.Indeterminate? then After(|a|, Parse(o.st, o.req, b)) else o
    decreases |a|
  {
    if a == [] {
      assert a + b == b;
    } else {
      var r := Consume(st, req, a[0]);
      assert (a + b)[1..] == a[1..] + b;
      if r.result.Indeterminate? { ParseInTwo(r.st, r.req, a[1..], b); }
    }
  }

  /** Feeding chunks one after the other until one decides. */
  function ParseChunks(st: State, req: Request, chunks: seq<seq<byte>>): Outcome
    requires Consistent(st, req)
    decreases |chunks|
  {
    if chunks == [] then Outcome(st, req, Indeterminate, 0)
    else
      var o := Parse(st, req, chunks[0]);
      if !o.result.Indeterminate? then o else After(|chunks[0]|, ParseChunks(o.st, o.req, chunks[1..]))
  }

  function Joined(chunks: seq<seq<byte>>): seq<byte>
  {
    if chunks == [] then [] else chunks[0] + Joined(chunks[1..])
  }

  /** Any partition of the input gives the result, the request and the consumed count of the whole. */
  lemma {:induction false} ChunksDoNotMatter(st: State, req: Request, chunks: seq<seq<byte>>)
    requires Consistent(st, req)
    ensures ParseChunks(st, req, chunks) == Parse(st, req, Joined(chunks))
    decreases |chunks|
  {
    if chunks != [] {
      var o := Parse(st, req, chunks[0]);
      ParseInTwo(st, req, chunks[0], Joined(chunks[1..]));
      if o.result.Indeterminate? { ChunksDoNotMatter(o.st, o.req, chunks[1..]); }
    }
  }

  // ---------------------------------------------------------------- the objects

  class RequestObject {
    var verb: seq<byte>
    var uri: seq<byte>
    var major: nat
    var minor: nat
    var headers: seq<Header>

    constructor ()
      ensures Contents() == NO_REQUEST
    {
      verb, uri, major, minor, headers := [], [], 0, 0, [];
    }

    function Contents(): Request
      reads this
    {
      Request(verb, uri, major, minor, headers)
    }

    method PushBackName(c: byte)
      requires headers != []
      modifies this`headers
      ensures Contents() == PushName(old(Contents()), c)
    {
      var last := headers[|headers| - 1];
      headers := headers[..|headers| - 1] + [last.(name := last.name + [c])];
    }

    method PushBackValue(c: byte)
      requires headers != []
      modifies this`headers
      ensures Contents() == PushValue(old(Contents()), c)
    {
      var last := headers[|headers| - 1];
      headers := headers[..|headers| - 1] + [last.(value := last.value + [c])];
    }
  }

  class Parser {
    var state: State

    constructor ()
      ensures state == MethodStart
    {
      state := MethodStart;
    }

    method Reset()
      modifies this
      ensures state == MethodStart
    {
      state := MethodStart;
    }

    /** consume on the request line; the rest of the switch is in ConsumeHeader. */
    method ConsumeByte(req: RequestObject, c: byte) returns (result: Result)
      requires Consistent(state, req.Contents())
      modifies this, req
      ensures Consume(old(state), old(req.Contents()), c) == Step(state, req.Contents(), result)
    {
      result := Indeterminate;
      match state
      case MethodStart =>
        if !IsToken(c) { result := Bad; } else { state := Method; req.verb := req.verb + [c]; }
      case Method =>
        if c == SP { state := Uri; }
        else if !IsToken(c) { result := Bad; }
        else { req.verb := req.verb + [c]; }
      case Uri =>
        if c == SP { state := VersionH; }
        else if IsCtl(c) { result := Bad; }
        else { req.uri := req.uri + [c]; }
      case VersionH => if c == 72 { state := VersionT1; } else { result := Bad; }
      case VersionT1 => if c == 84 { state := VersionT2; } else { result := Bad; }
      case VersionT2 => if c == 84 { state := VersionP; } else { result := Bad; }
      case VersionP => if c == 80 { state := VersionSlash; } else { result := Bad; }
      case VersionSlash =>
        if c == SLASH { req.major := 0; req.minor := 0; state := MajorStart; } else { result := Bad; }
      case MajorStart =>
        if IsDigit(c) { req.major := req.major * 10 + c - 48; state := Major; } else { result := Bad; }
      case Major =>
        if c == DOT { state := MinorStart; }
        else if IsDigit(c) { req.major := req.major * 10 + c - 48; }
        else { result := Bad; }
      case MinorStart =>
        if IsDigit(c) { req.minor := req.minor * 10 + c - 48; state := Minor; } else { result := Bad; }
      case Minor =>
        if c == CR { state := Newline1; }
        else if IsDigit(c) { req.minor := req.minor * 10 + c - 48; }
        else { result := Bad; }
      case Newline1 => if c == LF { state := LineStart; } else { result := Bad; }
      case _ => result := ConsumeHeader(req, c);
    }

    method ConsumeHeader(req: RequestObject, c: byte) returns (result: Result)
      requires Consistent(state, req.Contents()) && (InHeader(state) || state.LineStart? || state.Newline3?)
      modifies this, req
      ensures Consume(old(state), old(req.Contents()), c) == Step(state, req.Contents(), result)
    {
      result := Indeterminate;
      match state
      case LineStart =>
        if c == CR { state := Newline3; }
        else if req.headers != [] && IsBlank(c) { state := Lws; }
        else if !IsToken(c) { result := Bad; }
        else { req.headers := req.headers + [Header([c], [])]; state := Name; }
      case Lws =>
        if c == CR { state := Newline2; }
        else if IsBlank(c) { }
        else if IsCtl(c) { result := Bad; }
        else { state := Value; req.PushBackValue(c); }
      case Name =>
        if c == COLON { state := SpaceBeforeValue; }
        else if !IsToken(c) { result := Bad; }
        else { req.PushBackName(c); }
      case SpaceBeforeValue => if c == SP { state := Value; } else { result := Bad; }
      case Value =>
        if c == CR { state := Newline2; }
        else if IsCtl(c) { result := Bad; }
        else { req.PushBackValue(c); }
      case Newline2 => if c == LF { state := LineStart; } else { result := Bad; }
      case Newline3 => if c == LF { result := Good; } else { result := Bad; }
    }

    /** parse: the loop over the input. */
    method ParseBytes(req: RequestObject, input: seq<byte>) returns (result: Result, used: nat)
      requires Consistent(state, req.Contents())
      modifies this, req
      ensures Parse(old(state), old(req.Contents()), input) == Outcome(state, req.Contents(), result, used)
    {
      used := 0;
      ghost var whole := Parse(state, req.Contents(), input);
      assert input[0..] == input;
      while used < |input|
        invariant used <= |input| && Consistent(state, req.Contents())
        invariant whole == After(used, Parse(state, req.Contents(), input[used..]))
      {
        assert input[used..][1..] == input[used + 1..];
        result := ConsumeByte(req, input[used]);
        used := used + 1;
        if result.Good? || result.Bad? {
          return;
        }
      }
      result := Indeterminate;
    }
  }
}
