/** From a request's URI to the file it names: percent decoding and the checks on the path. */
module RequestHandler {
  import opened Bytes

  const SP: byte := 32
  const PERCENT: byte := 37
  const PLUS: byte := 43
  const MINUS: byte := 45
  const DOT: byte := 46
  const SLASH: byte := 47

  datatype Option<T> = None | Some(value: T)

  // ---------------------------------------------------------------- formatted extraction

  predicate IsHex(c: byte) { 48 <= c <= 57 || 65 <= c <= 70 || 97 <= c <= 102 }

  function HexValue(c: byte): nat
    requires IsHex(c)
  {
    if c <= 57 then c as int - 48 else if c <= 70 then c as int - 55 else c as int - 87
  }

  predicate IsSpace(c: byte) { c == SP || 9 <= c <= 13 }

  /**
    Extracting a hexadecimal int from two characters and narrowing it to a char: white space
    is skipped, one sign is read, and the digits end at the first other character. A lone
    prefix 0x is not a number.
   */
  function Extract(a: byte, b: byte): Option<byte>
  {
    if IsHex(a) && IsHex(b) then Some((HexValue(a) * 16 + HexValue(b)) as byte)
    else if a == 48 && (b == 88 || b == 120) then None
    else if IsHex(a) then Some(HexValue(a) as byte)
    else if !IsHex(b) then None
    else if IsSpace(a) || a == PLUS then Some(HexValue(b) as byte)
    else if a == MINUS then Some(((256 - HexValue(b)) % 256) as byte)
    else None
  }

  /** The value of a hexadecimal digit. */
  function DigitOf(c: byte): Option<nat>
  {
    if '0' as int <= c <= '9' as int then Some(c as int - '0' as int)
    else if 'a' as int <= c <= 'f' as int then Some(10 + c as int - 'a' as int)
    else if 'A' as int <= c <= 'F' as int then Some(10 + c as int - 'A' as int)
    else None
  }

  /** The number of the digits in front, after those read so far. */
  function Digits(s: seq<byte>, read: nat): nat
  {
    if s == [] || DigitOf(s[0]).None? then read else Digits(s[1..], read * 16 + DigitOf(s[0]).value)
  }

  function SkipSpace(s: seq<byte>): seq<byte>
  {
    if s != [] && (s[0] == ' ' as int || '\t' as int <= s[0] <= '\r' as int) then SkipSpace(s[1..]) else s
  }

  function Unsigned(s: seq<byte>): Option<nat>
  {
    var t := if |s| >= 2 && s[0] == '0' as int && (s[1] == 'x' as int || s[1] == 'X' as int) then s[2..] else s;
    if t == [] || DigitOf(t[0]).None? then None else Some(Digits(t, 0))
  }

  /**
    Formatted extraction with std::hex from any text: white space, a sign, a prefix 0x, digits.
    There is no number without a digit, and what follows the digits is left.
   */
  function Scan(s: seq<byte>): Option<int>
  {
    var t := SkipSpace(s);
    var signed := t != [] && (t[0] == '+' as int || t[0] == '-' as int);
    match Unsigned(if signed then t[1..] else t)
    case None => None
    case Some(n) => Some(if signed && t[0] == '-' as int then -(n as int) else n as int)
  }

  lemma ScanTwo(a: byte, b: byte)
    ensures SkipSpace([a, b]) == (if !IsSpace(a) then [a, b] else if !IsSpace(b) then [b] else [])
    ensures IsHex(b) ==> Digits([b], 0) == HexValue(b)
    ensures IsHex(a) ==> Digits([a, b], 0) == if IsHex(b) then 16 * HexValue(a) + HexValue(b) else HexValue(a)
  {
    assert [a, b][1..] == [b] && [b][1..] == [];
    assert SkipSpace([b]) == if IsSpace(b) then [] else [b];
    assert IsHex(a) ==> Digits([a, b], 0) == Digits([b], HexValue(a));
    assert IsHex(a) ==> Digits([b], HexValue(a)) == if IsHex(b) then HexValue(a) * 16 + HexValue(b) else HexValue(a);
  }

  /** On two characters, extraction and narrowing come to the case distinction above. */
  lemma ExtractIsScan(a: byte, b: byte)
    ensures Extract(a, b) == match Scan([a, b]) { case None => None case Some(v) => Some((v % 256) as byte) }
  {
    ScanTwo(a, b);
    assert [a, b][1..] == [b] && [a, b][2..] == [] && [b][1..] == [];
  }

  // ---------------------------------------------------------------- percent decoding

  /** The return value and the output string, which on failure holds what came before. */
  datatype Decoded = Decoded(ok: bool, out: seq<byte>)

  function Prepend(c: byte, d: Decoded): Decoded { d.(out := [c] + d.out) }

  function Decode(s: seq<byte>): Decoded
    decreases |s|
  {
    if s == [] then Decoded(true, [])
    else if s[0] == PERCENT then
      if |s| >= 3 && Extract(s[1], s[2]).Some? then Prepend(Extract(s[1], s[2]).value, Decode(s[3..]))
      else Decoded(false, [])
    else if s[0] == PLUS then Prepend(SP, Decode(s[1..]))
    else Prepend(s[0], Decode(s[1..]))
  }

  /** d, decoded after out. */
  function Behind(out: seq<byte>, d: Decoded): Decoded { d.(out := out + d.out) }

  /** One more byte, written with n characters, goes to the output. */
  lemma BehindOne(out: seq<byte>, s: seq<byte>, i: nat, n: nat, c: byte)
    requires i + n <= |s| && Decode(s[i..]) == Prepend(c, Decode(s[i..][n..]))
    ensures Behind(out, Decode(s[i..])) == Behind(out + [c], Decode(s[i + n..]))
  {
    assert s[i..][n..] == s[i + n..];
    var d := Decode(s[i + n..]).out;
    assert out + ([c] + d) == out + [c] + d;
  }

  /** url_decode. */
  method UrlDecode(input: seq<byte>) returns (ok: bool, out: seq<byte>)
    ensures Decode(input) == Decoded(ok, out)
    ensures |out| <= |input|
  {
    out := [];
    var i := 0;
    assert input[0..] == input;
    while i < |input|
      invariant 0 <= i <= |input| && |out| <= i
      invariant Decode(input) == Behind(out, Decode(input[i..]))
    {
      if input[i] == PERCENT {
        if i + 3 <= |input| {
          var value := Extract(input[i + 1], input[i + 2]);
          if value.Some? {
            BehindOne(out, input, i, 3, value.value);
            out := out + [value.value];
            i := i + 2;
          } else {
            return false, out;
          }
        } else {
          return false, out;
        }
      } else if input[i] == PLUS {
        BehindOne(out, input, i, 1, SP);
        out := out + [SP];
      } else {
        BehindOne(out, input, i, 1, input[i]);
        out := out + [input[i]];
      }
      i := i + 1;
    }
    ok := true;
  }

  /** How one byte may be written. */
  datatype Unit = Plain(c: byte) | Plus | Escape(a: byte, b: byte)

  predicate UnitOk(u: Unit)
  {
    match u
    case Plain(c) => c != '%' as int && c != '+' as int
    case Plus => true
    case Escape(a, b) => Extract(a, b).Some?
  }

  function UnitBytes(u: Unit): seq<byte>
  {
    match u
    case Plain(c) => [c]
    case Plus => ['+' as int as byte]
    case Escape(a, b) => ['%' as int as byte, a, b]
  }

  function UnitValue(u: Unit): byte
    requires UnitOk(u)
  {
    match u
    case Plain(c) => c
    case Plus => ' ' as int as byte
    case Escape(a, b) => Extract(a, b).value
  }

  predicate AllOk(us: seq<Unit>) { forall i :: 0 <= i < |us| ==> UnitOk(us[i]) }

  function Written(us: seq<Unit>): seq<byte>
  {
    if us == [] then [] else UnitBytes(us[0]) + Written(us[1..])
  }

  function Values(us: seq<Unit>): seq<byte>
    requires AllOk(us)
  {
    seq(|us|, i requires 0 <= i < |us| => UnitValue(us[i]))
  }

  /** Writing bytes in any mixture of the forms and decoding gives them back. */
  lemma {:induction false} DecodeInvertsWriting(us: seq<Unit>)
    requires AllOk(us)
    ensures Decode(Written(us)) == Decoded(true, Values(us))
    decreases |us|
  {
    if us != [] {
      DecodeInvertsWriting(us[1..]);
      var s := Written(us);
      assert s[|UnitBytes(us[0])|..] == Written(us[1..]);
      assert Values(us) == [UnitValue(us[0])] + Values(us[1..]);
    }
  }

  /** The input starts with a percent sign that no extractable pair follows. */
  predicate Stuck(s: seq<byte>) { s != [] && s[0] == PERCENT && !(|s| >= 3 && Extract(s[1], s[2]).Some?) }

  function FirstUnit(s: seq<byte>): Unit
    requires s != [] && !Stuck(s)
  {
    if s[0] == PERCENT then Escape(s[1], s[2]) else if s[0] == PLUS then Plus else Plain(s[0])
  }

  lemma FirstUnitTaken(s: seq<byte>)
    requires s != [] && !Stuck(s)
    ensures var u := FirstUnit(s); var n := |UnitBytes(u)|;
            UnitOk(u) && 1 <= n <= |s| && s[..n] == UnitBytes(u) && Decode(s) == Prepend(UnitValue(u), Decode(s[n..]))
  {
  }

  lemma OneUnitMore(u: Unit, us: seq<Unit>)
    requires UnitOk(u) && AllOk(us)
    ensures AllOk([u] + us) && Written([u] + us) == UnitBytes(u) + Written(us)
    ensures Values([u] + us) == [UnitValue(u)] + Values(us)
  {
    assert ([u] + us)[1..] == us;
  }

  /** Decoding succeeds on nothing else. */
  lemma {:induction false} DecodedIsWritten(s: seq<byte>) returns (us: seq<Unit>)
    requires Decode(s).ok
    ensures AllOk(us) && s == Written(us) && Decode(s).out == Values(us)
    decreases |s|
  {
    us := [];
    if s != [] {
      var u := FirstUnit(s);
      FirstUnitTaken(s);
      var rest := s[|UnitBytes(u)|..];
      assert s == UnitBytes(u) + rest;
      us := DecodedIsWritten(rest);
      OneUnitMore(u, us);
      us := [u] + us;
    }
  }

  /** A refused input decodes up to an escape that is cut off or does not extract. */
  lemma {:induction false} RefusedAtAnEscape(s: seq<byte>) returns (us: seq<Unit>, i: nat)
    requires !Decode(s).ok
    ensures AllOk(us) && Decode(s).out == Values(us)
    ensures i < |s| && s[..i] == Written(us) && Stuck(s[i..])
    decreases |s|
  {
    us, i := [], 0;
    if Stuck(s) {
      assert s[0..] == s;
    } else {
      var u := FirstUnit(s);
      var n := |UnitBytes(u)|;
      FirstUnitTaken(s);
      us, i := RefusedAtAnEscape(s[n..]);
      OneUnitMore(u, us);
      Shifted(s, n, i);
      us, i := [u] + us, n + i;
    }
  }

  lemma Shifted(s: seq<byte>, n: nat, i: nat)
    requires n + i <= |s|
    ensures s[..n + i] == s[..n] + s[n..][..i] && s[n + i..] == s[n..][i..]
  {
  }

  function HexDigit(n: nat, upper: bool): byte
    requires n < 16
  {
    if n < 10 then (48 + n) as byte else if upper then (55 + n) as byte else (87 + n) as byte
  }

  /** Every byte has its escapes, in either letter case. */
  lemma EscapeOfByte(c: byte, high: bool, low: bool)
    ensures var u := Escape(HexDigit(c as int / 16, high), HexDigit(c as int % 16, low)); UnitOk(u) && UnitValue(u) == c
  {
  }

  // ---------------------------------------------------------------- the path

  predicate DotDotAt(s: seq<byte>, i: nat) { i + 1 < |s| && s[i] == DOT && s[i + 1] == DOT }

  predicate HasDotDot(s: seq<byte>) { exists i :: 0 <= i < |s| && DotDotAt(s, i) }

  /** find_last_of with one character; -1 for npos. */
  function FindLast(s: seq<byte>, c: byte): (k: int)
    ensures -1 <= k < |s| && (k >= 0 ==> s[k] == c)
    ensures forall i :: k < i < |s| ==> s[i] != c
  {
    if s == [] then -1 else if s[|s| - 1] == c then |s| - 1 else FindLast(s[..|s| - 1], c)
  }

  const INDEX_HTML: seq<byte> := [105, 110, 100, 101, 120, 46, 104, 116, 109, 108]

  /** The name of a directory's file, and the characters a path is cut at. */
  lemma Literals()
    ensures |INDEX_HTML| == |"index.html"|
    ensures forall i :: 0 <= i < |INDEX_HTML| ==> INDEX_HTML[i] == "index.html"[i] as int
    ensures DOT == '.' as int && SLASH == '/' as int
  {
  }

  datatype Lookup = BadRequest | File(full: seq<byte>, extension: seq<byte>)

  predicate Acceptable(path: seq<byte>) { path != [] && path[0] == SLASH && !HasDotDot(path) }

  function Completed(path: seq<byte>): seq<byte>
    requires path != []
  {
    if path[|path| - 1] == SLASH then path + INDEX_HTML else path
  }

  /** ext is what follows the last dot of the path's last segment, and empty if it has none. */
  predicate IsExtension(path: seq<byte>, ext: seq<byte>)
  {
    && DOT !in ext && SLASH !in ext
    && ((|ext| < |path| && path[|path| - |ext| - 1..] == [DOT] + ext)
        || (ext == [] && exists k :: 0 <= k <= |path| && (k > 0 ==> path[k - 1] == SLASH) && DOT !in path[k..]))
  }

  // ---------------------------------------------------------------- staying under the root

  /** The segments of a path, which '/' separates. */
  function Segments(path: seq<byte>): (ss: seq<seq<byte>>)
    ensures ss != []
  {
    if path == [] then [[]]
    else
      var ss := Segments(path[1..]);
      if path[0] == SLASH then [[]] + ss else [[path[0]] + ss[0]] + ss[1..]
  }

  /** Walking down the segments from a directory at a depth; None when the walk leaves its root. */
  function Walk(depth: nat, ss: seq<seq<byte>>): Option<nat>
    decreases |ss|
  {
    if ss == [] then Some(depth)
    else if ss[0] == [DOT, DOT] then if depth == 0 then None else Walk(depth - 1, ss[1..])
    else if ss[0] == [] || ss[0] == [DOT] then Walk(depth, ss[1..])
    else Walk(depth + 1, ss[1..])
  }

  lemma FirstSegment(c: byte, rest: seq<byte>)
    requires !HasDotDot(rest) && !(c == DOT && rest != [] && rest[0] == DOT)
    ensures !HasDotDot([c] + rest)
  {
    var s := [c] + rest;
    forall i | 0 <= i < |s| ensures !DotDotAt(s, i) {
      if i > 0 { assert !DotDotAt(rest, i - 1); }
    }
  }

  lemma {:induction false} NoDotDotSegment(path: seq<byte>)
    requires !HasDotDot(path)
    ensures forall i :: 0 <= i < |Segments(path)| ==> !HasDotDot(Segments(path)[i])
    ensures path != [] && path[0] == DOT ==> Segments(path)[0] != [] && Segments(path)[0][0] == DOT
    ensures path == [] || path[0] != DOT ==> Segments(path)[0] == [] || Segments(path)[0][0] != DOT
  {
    if path != [] {
      var rest := path[1..];
      forall i | 0 <= i < |rest| ensures !DotDotAt(rest, i) { assert !DotDotAt(path, i + 1); }
      assert !DotDotAt(path, 0);
      NoDotDotSegment(rest);
      var ss := Segments(rest);
      forall i | 0 <= i < |Segments(path)| ensures !HasDotDot(Segments(path)[i]) {
        if path[0] != SLASH && i == 0 { FirstSegment(path[0], ss[0]); }
      }
    }
  }

  lemma {:induction false} WalkStays(depth: nat, ss: seq<seq<byte>>)
    requires forall i :: 0 <= i < |ss| ==> ss[i] != [DOT, DOT]
    ensures Walk(depth, ss).Some? && Walk(depth, ss).value >= depth
    decreases |ss|
  {
    if ss != [] {
      WalkStays(if ss[0] == [] || ss[0] == [DOT] then depth else depth + 1, ss[1..]);
    }
  }

  lemma NoDotDotWalk(path: seq<byte>)
    requires !HasDotDot(path)
    ensures Walk(0, Segments(path)).Some?
  {
    var ss := Segments(path);
    NoDotDotSegment(path);
    forall i | 0 <= i < |ss| ensures ss[i] != [DOT, DOT] {
      assert DotDotAt([DOT, DOT], 0);
    }
    WalkStays(0, ss);
  }

  lemma CompletedHasNoDotDot(path: seq<byte>)
    requires Acceptable(path)
    ensures !HasDotDot(Completed(path))
  {
    var s := Completed(path);
    forall i | 0 <= i < |s| ensures !DotDotAt(s, i) {
      if i < |path| - 1 { assert !DotDotAt(path, i); }
    }
  }

  /** A path that passes the checks names something below the root it is appended to. */
  lemma StaysUnderRoot(path: seq<byte>)
    requires Acceptable(path)
    ensures !HasDotDot(Completed(path)) && Walk(0, Segments(Completed(path))).Some?
  {
    CompletedHasNoDotDot(path);
    NoDotDotWalk(Completed(path));
  }

  // ---------------------------------------------------------------- the name that is opened

  /** A C string ends at its first zero byte: this is the name that the file is opened by. */
  function Opened(s: seq<byte>): (t: seq<byte>)
    ensures t <= s && 0 !in t && (t == s || s[|t|] == 0)
  {
    if s == [] || s[0] == 0 then [] else [s[0]] + Opened(s[1..])
  }

  /** The file opened is the one that path and extension name exactly when the path has no zero byte. */
  lemma OpenedIsNamed(docRoot: seq<byte>, path: seq<byte>)
    requires 0 !in docRoot
    ensures Opened(docRoot + path) == docRoot + path <==> 0 !in path
  {
    var s := docRoot + path;
    assert 0 in path ==> 0 in s;
    assert 0 !in path ==> 0 !in s;
  }

  lemma {:induction false} OpenedBehind(docRoot: seq<byte>, path: seq<byte>)
    requires 0 !in docRoot
    ensures Opened(docRoot + path) == docRoot + Opened(path)
  {
    if docRoot == [] {
      assert docRoot + path == path && docRoot + Opened(path) == Opened(path);
    } else {
      assert (docRoot + path)[1..] == docRoot[1..] + path && docRoot[0] != 0;
      OpenedBehind(docRoot[1..], path);
    }
  }

  /** Whatever is opened is still below the root. */
  lemma OpenedStaysUnderRoot(docRoot: seq<byte>, path: seq<byte>)
    requires 0 !in docRoot && Acceptable(path)
    ensures Opened(docRoot + Completed(path)) == docRoot + Opened(Completed(path))
    ensures Walk(0, Segments(Opened(Completed(path)))).Some?
  {
    var s := Completed(path);
    var t := Opened(s);
    OpenedBehind(docRoot, s);
    StaysUnderRoot(path);
    forall i | 0 <= i < |t| ensures !DotDotAt(t, i) { assert !DotDotAt(s, i); }
    NoDotDotWalk(t);
  }

  /** Otherwise they can differ: the file is named by what precedes the zero byte, the extension by what follows. */
  lemma NamesCanDiffer(file: seq<byte>, ext: seq<byte>)
    requires Acceptable(file) && 0 !in file && DOT !in ext && SLASH !in ext
    ensures var path := file + [0, DOT] + ext;
            && Acceptable(path) && Completed(path) == path
            && IsExtension(path, ext) && Opened(path) == file
  {
    var path := file + [0, DOT] + ext;
    forall i | 0 <= i < |path| ensures !DotDotAt(path, i) { assert i < |file| ==> !DotDotAt(file, i); }
    OpenedBehind(file, [0, DOT] + ext);
    assert path == file + ([0, DOT] + ext);
    assert path[|path| - |ext| - 1..] == [DOT] + ext;
  }

  // ---------------------------------------------------------------- the lookup

  lemma LongerExtensionWins(path: seq<byte>, e: seq<byte>, f: seq<byte>)
    requires IsExtension(path, f) && |e| < |f|
    ensures !IsExtension(path, e)
  {
    var n := |path|;
    assert path[n - |f| - 1..] == [DOT] + f;
    forall i | n - |f| <= i < n ensures path[i] != DOT && path[i] != SLASH {
      assert path[i] == path[n - |f| - 1..][i - (n - |f| - 1)] == f[i - (n - |f|)];
    }
    assert path[n - |f| - 1] == DOT;
    assert path[n - |e| - 1..][0] == path[n - |e| - 1];
    forall k | 0 <= k <= n && (k > 0 ==> path[k - 1] == SLASH) ensures DOT in path[k..] {
      assert path[k..][n - |f| - 1 - k] == DOT;
    }
  }

  lemma ExtensionIsUnique(path: seq<byte>, e: seq<byte>, f: seq<byte>)
    requires IsExtension(path, e) && IsExtension(path, f)
    ensures e == f
  {
    var n := |path|;
    if |e| < |f| {
      LongerExtensionWins(path, e, f);
    } else if |f| < |e| {
      LongerExtensionWins(path, f, e);
    } else if e != [] {
      assert e == path[n - |e|..] && f == path[n - |e|..];
    }
  }

  /** The file extension; the path, being absolute, has a slash. */
  method Extension(path: seq<byte>) returns (extension: seq<byte>)
    requires path != [] && path[0] == SLASH
    ensures IsExtension(path, extension)
  {
    var lastSlash := FindLast(path, SLASH);
    var lastDot := FindLast(path, DOT);
    extension := [];
    if lastDot != -1 && lastDot > lastSlash {
      extension := path[lastDot + 1..];
      assert path[lastDot..] == [DOT] + extension;
    } else {
      assert DOT !in path[lastSlash + 1..];
    }
  }

  /** handle_request up to opening the file. */
  method Resolve(docRoot: seq<byte>, uri: seq<byte>) returns (r: Lookup)
    ensures r.BadRequest? <==> !(Decode(uri).ok && Acceptable(Decode(uri).out))
    ensures r.File? ==>
              var path := Completed(Decode(uri).out);
              && r.full == docRoot + path && IsExtension(path, r.extension)
              && path[0] == SLASH && path[|path| - 1] != SLASH && !HasDotDot(path)
              && Walk(0, Segments(path)).Some?
  {
    var ok, path := UrlDecode(uri);
    if !ok {
      return BadRequest;
    }
    if path == [] || path[0] != SLASH || HasDotDot(path) {
      return BadRequest;
    }
    StaysUnderRoot(path);
    if path[|path| - 1] == SLASH {
      path := path + INDEX_HTML;
    }
    var extension := Extension(path);
    r := File(docRoot + path, extension);
  }
}
