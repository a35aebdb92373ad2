/** The parser of encoding/sexpr/canonical/canonical.go:95-313 as functions, one per Go
    function, each following the code's branches in order. A function returns what the Go
    function returns: a value and the rest of the input, an error, or a run-time panic.
    The methods of module Parser run the same loops as the code and are proved to compute
    these functions. */
module Grammar {
  import opened Bytes
  import opened Conversions
  import opened Sexprs

  /** parseSexpr: dispatch on the first byte. On success the rest is a proper suffix of the
      input, which makes parseList's loop terminate. */
  function ParseSexpr(s: seq<byte>): (r: Outcome<Sexpr>)
    ensures r.Ok? ==> IsProperSuffix(r.rest, s)
    decreases |s|, 0
  {
    if |s| == 0 then Panic
    else if s[0] == Ch('(') then ParseList(s[1..])
    else if In(s[0], StringChar) then ParseAtom(s)
    else Err(UnrecognisedStart)
  }

  /** parseList: children until the first `)`, which is left at the head of the rest. */
  function ParseList(s: seq<byte>): (r: Outcome<Sexpr>)
    ensures r.Ok? ==> r.value.List? && IsSuffix(r.rest, s) && |r.rest| > 0 && r.rest[0] == Ch(')')
    decreases |s|, 2
  {
    ParseItems(s, [])
  }

  /** parseList's loop from a point where `acc` holds the children read so far and `s` is the
      input not yet read: whitespace is skipped one byte at a time, and any other byte but `)`
      starts a child. */
  function ParseItems(s: seq<byte>, acc: seq<Sexpr>): (r: Outcome<Sexpr>)
    ensures r.Ok? ==> r.value.List? && IsSuffix(r.rest, s) && |r.rest| > 0 && r.rest[0] == Ch(')')
    decreases |s|, 1
  {
    if |s| == 0 then Err(UnterminatedList)
    else if s[0] == Ch(')') then Ok(List(acc), s)
    else if In(s[0], WhitespaceChar) then ParseItems(s[1..], acc)
    else
      match ParseSexpr(s)
      case Ok(child, rest) => ParseItems(rest, acc + [child])
      case Err(k) => Err(k)
      case Panic => Panic
  }

  /** parseAtom: an optional display hint after `[`, then the value, read from where the
      hint stopped. */
  function ParseAtom(s: seq<byte>): (r: Outcome<Sexpr>)
    ensures r.Ok? ==> r.value.Atom? && IsProperSuffix(r.rest, s)
  {
    if |s| == 0 then Panic
    else if s[0] == Ch('[') then
      match ParseSimpleString(s[1..])
      case Err(k) => Err(k)
      case Panic => Panic
      case Ok(hint, after) =>
        match ParseSimpleString(after)
        case Ok(value, rest) => Ok(Atom(hint, value), rest)
        case Err(k) => Err(k)
        case Panic => Panic
    else
      match ParseSimpleString(s)
      case Ok(value, rest) => Ok(Atom([], value), rest)
      case Err(k) => Err(k)
      case Panic => Panic
  }

  /** parseSimpleString: an optional decimal length, then the string proper. */
  function ParseSimpleString(s: seq<byte>): (r: Outcome<seq<byte>>)
    ensures r.Ok? ==> IsProperSuffix(r.rest, s)
  {
    if |s| == 0 then Panic
    else if In(s[0], DecimalDigit) then
      var n := Span(s, DecimalDigit);
      match Atoi(s[..n])
      case None => Err(LengthOutOfRange)
      case Some(length) => SimpleStringBody(s[n..], length)
    else SimpleStringBody(s, -1)
  }

  /** parseSimpleString from its `switch` on, given the explicit length or -1 for none. */
  function SimpleStringBody(s: seq<byte>, length: int): (r: Outcome<seq<byte>>)
    requires length >= -1
    ensures r.Ok? ==> IsSuffix(r.rest, s) && (length == -1 ==> |r.rest| < |s|)
  {
    if |s| == 0 then Panic
    else if s[0] == Ch(':') then
      if length < 0 then Err(UnspecifiedLength)
      else if length + 1 > |s| then Panic
      else Ok(s[1..length + 1], s[length + 1..])
    else if s[0] == Ch('#') || s[0] == Ch('|') || s[0] == Ch('"') then
      var inner :=
        if s[0] == Ch('#') then ParseHexadecimal(s[1..])
        else if s[0] == Ch('|') then ParseBase64(s[1..])
        else ParseQuotedString(s[1..], length);
      match inner
      case Err(k) => Err(k)
      case Panic => Panic
      case Ok(str, rest) =>
        if length == -1 then Ok(str, rest)
        else if |str| != length then Err(LengthMismatch)
        else if length > |s| then Panic
        else Ok(str, s[length..])
    else if In(s[0], TokenChar) then
      var n := Span(s, TokenChar);
      Ok(s[..n], s[n..])
    else Err(UnknownChar)
  }

  /** parseHexadecimal: the run of hexadecimal digits must end at `#`, which is consumed. */
  function ParseHexadecimal(s: seq<byte>): (r: Outcome<seq<byte>>)
    ensures r.Ok? ==> IsProperSuffix(r.rest, s)
  {
    var n := Span(s, HexadecimalDigit);
    if n == |s| then Err(HexEnd)
    else if s[n] != Ch('#') then Err(HexTerminator)
    else
      match HexDecode(s[..n])
      case None => Err(HexOddLength)
      case Some(str) => Ok(str, s[n + 1..])
  }

  /** parseBase64: the run is measured with the hexadecimal table, must end at `|`, which
      stays in the rest, and the result is a prefix of the encoded run as long as its
      decoding. */
  function ParseBase64(s: seq<byte>): (r: Outcome<seq<byte>>)
    ensures r.Ok? ==> IsSuffix(r.rest, s) && |r.rest| > 0 && r.rest[0] == Ch('|')
  {
    var n := Span(s, HexadecimalDigit);
    if n == |s| then Err(Base64End)
    else if s[n] != Ch('|') then Err(Base64Terminator)
    else
      match Base64DecodedLen(s[..n])
      case None => Err(Base64Corrupt)
      case Some(len) => Ok(s[..len], s[n..])
  }

  /** The bytes parseQuotedString starts its accumulator with: `length` zero bytes when the
      explicit length is positive. */
  function Prefill(length: int): (z: seq<byte>)
    ensures |z| == (if length > 0 then length else 0)
    ensures forall j :: 0 <= j < |z| ==> z[j] == 0
  {
    if length > 0 then seq(length, _ => 0) else []
  }

  /** The nine escapes that stand for one byte each: \b \t \v \n \f \r \" \' \\ */
  function Unescape(c: byte): (r: Option<byte>)
    ensures r.Some? <==>
      c == Ch('b') || c == Ch('t') || c == Ch('v') || c == Ch('n') || c == Ch('f') || c == Ch('r')
      || c == Ch('"') || c == Ch('\'') || c == Ch('\\')
    ensures r.Some? ==> (r.value == c <==> c == Ch('"') || c == Ch('\'') || c == Ch('\\'))
    ensures r.Some? && r.value != c ==> 8 <= r.value <= 13
  {
    if c == Ch('b') then Some(8)
    else if c == Ch('t') then Some(9)
    else if c == Ch('v') then Some(11)
    else if c == Ch('n') then Some(10)
    else if c == Ch('f') then Some(12)
    else if c == Ch('r') then Some(13)
    else if c == Ch('"') then Some(Ch('"'))
    else if c == Ch('\'') then Some(Ch('\''))
    else if c == Ch('\\') then Some(Ch('\\'))
    else None
  }

  /** parseQuotedString: the bytes up to the first unescaped `"`, which is consumed. */
  function ParseQuotedString(s: seq<byte>, length: int): (r: Outcome<seq<byte>>)
    ensures r.Ok? ==> IsProperSuffix(r.rest, s)
  {
    QuotedFrom(s, 0, Prefill(length), length)
  }

  /** parseQuotedString's loop at index `i` with accumulator `acc`. */
  function QuotedFrom(s: seq<byte>, i: nat, acc: seq<byte>, length: int): (r: Outcome<seq<byte>>)
    requires i <= |s|
    ensures r.Ok? ==> IsProperSuffix(r.rest, s)
    decreases |s| - i
  {
    if i == |s| then Err(UnterminatedQuoted)
    else if s[i] == Ch('"') then
      if length != -1 && |acc| != length then Err(LengthMismatch) else Ok(acc, s[i + 1..])
    else if s[i] == Ch('\\') then
      if i + 1 == |s| then Err(UnterminatedEscape)
      else
        var c := s[i + 1];
        if Unescape(c).Some? then QuotedFrom(s, i + 2, acc + [Unescape(c).value], length)
        else if c == Ch('\n') then
          QuotedFrom(s, if i + 2 < |s| && s[i + 2] == Ch('\r') then i + 3 else i + 2, acc, length)
        else if c == Ch('\r') then
          QuotedFrom(s, if i + 2 < |s| && s[i + 2] == Ch('\n') then i + 3 else i + 2, acc, length)
        else if c == Ch('x') then
          // s[i+1:i+2] in the code's indexing, which has already stepped past the backslash
          if i + 3 > |s| then Panic
          else
            match ParseHexDigit(s[i + 2])
            case None => Err(BadHexEscape)
            case Some(b) => QuotedFrom(s, i + 2, acc + [b], length)
        else if In(c, OctalDigit) && (i + 2 >= |s| || (In(s[i + 2], OctalDigit) && i + 3 >= |s|)) then
          Panic
        else Err(UnrecognisedEscape)
    else QuotedFrom(s, i + 1, acc + [s[i]], length)
  }
}
