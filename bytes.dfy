/** Bytes, the character-class tables that drive the scanners, and the outcome of a parse step. */
module Bytes {

  type byte = x: int | 0 <= x < 256

  /** The byte of an ASCII character literal. */
  function Ch(c: char): (b: byte)
    requires c as int < 256
    ensures b == c as int
  {
    c as int
  }

  /** The bytes of an ASCII string literal, for concrete examples. */
  function Ascii(s: string): (r: seq<byte>)
    requires forall i :: 0 <= i < |s| ==> s[i] as int < 256
    ensures |r| == |s| && forall i :: 0 <= i < |s| ==> r[i] == s[i] as int
  {
    seq(|s|, i requires 0 <= i < |s| => s[i] as int)
  }

  /** The package-level byte tables. Each is used only through membership tests,
      so each stands for the set of bytes it spells out. */
  datatype Table =
    | LowerCase | UpperCase | DecimalDigit | Alpha | HexadecimalDigit | OctalDigit
    | SimplePunc | WhitespaceChar | Base64Char | TokenChar | StringChar

  predicate IsLower(c: byte) { Ch('a') <= c <= Ch('z') }
  predicate IsUpper(c: byte) { Ch('A') <= c <= Ch('Z') }
  predicate IsDigit(c: byte) { Ch('0') <= c <= Ch('9') }
  predicate IsAlpha(c: byte) { IsLower(c) || IsUpper(c) }
  predicate IsHexDigit(c: byte) { IsDigit(c) || Ch('a') <= c <= Ch('f') || Ch('A') <= c <= Ch('F') }
  predicate IsSimplePunc(c: byte) {
    c == Ch('-') || c == Ch('.') || c == Ch('/') || c == Ch('_') ||
    c == Ch(':') || c == Ch('*') || c == Ch('+') || c == Ch('=')
  }
  predicate IsTokenChar(c: byte) { IsAlpha(c) || IsDigit(c) || IsSimplePunc(c) }

  /** `bytes.IndexByte(t, c) > -1` */
  predicate In(c: byte, t: Table) {
    match t
    case LowerCase => IsLower(c)
    case UpperCase => IsUpper(c)
    case DecimalDigit => IsDigit(c)
    case Alpha => IsAlpha(c)
    case HexadecimalDigit => IsHexDigit(c)
    case OctalDigit => Ch('0') <= c <= Ch('7')
    case SimplePunc => IsSimplePunc(c)
    case WhitespaceChar => c == Ch(' ') || c == Ch('\t') || c == Ch('\r') || c == Ch('\n')
    case Base64Char => IsAlpha(c) || IsDigit(c) || c == Ch('+') || c == Ch('/') || c == Ch('=')
    case TokenChar => IsTokenChar(c)
    case StringChar => IsTokenChar(c) || IsHexDigit(c) || c == Ch('"') || c == Ch('|') || c == Ch('#')
  }

  predicate AllIn(s: seq<byte>, t: Table) {
    forall j :: 0 <= j < |s| ==> In(s[j], t)
  }

  /** The length of the longest prefix of `s` whose bytes are all in `t`: where each
      scanner's index loop stops. */
  function Span(s: seq<byte>, t: Table): (n: nat)
    ensures n <= |s|
    ensures AllIn(s[..n], t)
    ensures n < |s| ==> !In(s[n], t)
  {
    if |s| == 0 || !In(s[0], t) then 0
    else
      var m := Span(s[1..], t);
      assert s[1..][..m] == s[1..m + 1];
      1 + m
  }

  /** A run of class bytes followed by a byte outside the class (or by nothing) is exactly the span. */
  lemma {:induction false} SpanOfRun(run: seq<byte>, tail: seq<byte>, t: Table)
    requires AllIn(run, t)
    requires tail == [] || !In(tail[0], t)
    ensures Span(run + tail, t) == |run|
  {
    var s := run + tail;
    assert forall j :: 0 <= j < |run| ==> s[j] == run[j];
    assert |run| < |s| ==> s[|run|] == tail[0];
  }

  predicate IsSuffix(r: seq<byte>, s: seq<byte>) {
    |r| <= |s| && r == s[|s| - |r|..]
  }

  predicate IsProperSuffix(r: seq<byte>, s: seq<byte>) {
    |r| < |s| && r == s[|s| - |r|..]
  }

  /** Which of the parser's error returns was taken. The messages are not modelled. */
  datatype ErrorKind =
    | UnrecognisedStart     // parseSexpr: byte neither '(' nor in stringChar
    | UnterminatedList      // parseList: input ran out before ')'
    | LengthOutOfRange      // strconv.Atoi: explicit length does not fit a 64-bit int
    | UnspecifiedLength     // raw string ':' without a decimal length
    | UnknownChar           // parseSimpleString: byte that starts no simple string
    | LengthMismatch        // explicit length differs from the decoded length
    | HexTerminator         // hexadecimal run ended by a byte other than '#'
    | HexOddLength          // hex.Decode: odd number of digits
    | HexEnd                // input ran out inside a hexadecimal run
    | Base64Terminator      // base64 run ended by a byte other than '|'
    | Base64Corrupt         // base64.StdEncoding.Decode rejected the run
    | Base64End             // input ran out inside a base64 run
    | UnterminatedEscape    // backslash as the last byte of a quoted string
    | BadHexEscape          // strconv.ParseInt rejected the byte after \x
    | UnrecognisedEscape    // any other escape, octal included
    | UnterminatedQuoted    // input ran out before the closing quote

  /** The three ways a Go parse function can end: a value and the unconsumed slice, an
      error value, or a run-time panic from an index or slice expression. */
  datatype Outcome<T> = Ok(value: T, rest: seq<byte>) | Err(kind: ErrorKind) | Panic
}
