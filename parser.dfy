/** The parser as the code runs it: each method follows its Go function statement by
    statement, keeping the index loops and the reassigned `s`, `i` and `acc`, and is proved
    to return what the function of the same name in module Grammar returns. */
module Parser {
  import opened Bytes
  import opened Conversions
  import opened Sexprs
  import G = Grammar

  /** ParseBytes */
  method ParseBytes(bytes: seq<byte>) returns (r: Outcome<Sexpr>)
    ensures r == G.ParseSexpr(bytes)
  {
    r := ParseSexpr(bytes);
  }

  /** parseSexpr */
  method ParseSexpr(s: seq<byte>) returns (r: Outcome<Sexpr>)
    ensures r == G.ParseSexpr(s)
    decreases |s|, 0
  {
    if |s| == 0 {
      return Panic;  // s[0]
    }
    var first, rest := s[0], s[1..];
    if first == Ch('(') {
      r := ParseList(rest);
    } else if In(first, StringChar) {
      r := ParseAtom(s);
    } else {
      r := Err(UnrecognisedStart);
    }
  }

  /** parseList: the loop restarts at index 0 of the rest after each child. */
  method ParseList(s: seq<byte>) returns (r: Outcome<Sexpr>)
    ensures r == G.ParseList(s)
    decreases |s|, 1
  {
    var acc: seq<Sexpr> := [];
    var t := s;
    var i := 0;
    while i < |t|
      invariant 0 <= i <= |t| <= |s|
      invariant G.ParseItems(t[i..], acc) == G.ParseList(s)
      decreases |t| - i
    {
      var c := t[i];
      if c == Ch(')') {
        return Ok(List(acc), t[i..]);
      } else if !In(c, WhitespaceChar) {
        var child := ParseSexpr(t[i..]);
        if !child.Ok? {
          return child;
        }
        t := child.rest;
        i := -1;
        acc := acc + [child.value];
      } else {
        assert t[i..][1..] == t[i + 1..];
      }
      i := i + 1;
    }
    r := Err(UnterminatedList);
  }

  /** parseAtom */
  method ParseAtom(s: seq<byte>) returns (r: Outcome<Sexpr>)
    ensures r == G.ParseAtom(s)
  {
    if |s| == 0 {
      return Panic;  // s[0]
    }
    var first, rest := s[0], s[1..];
    var displayHint: seq<byte> := [];
    var t := s;
    if first == Ch('[') {
      var hint := ParseSimpleString(rest);
      if hint.Err? {
        return Err(hint.kind);
      } else if hint.Panic? {
        return Panic;
      }
      displayHint, t := hint.value, hint.rest;
    }
    var value := ParseSimpleString(t);
    match value
    case Err(k) => r := Err(k);
    case Panic => r := Panic;
    case Ok(v, rest') => r := Ok(Atom(displayHint, v), rest');
  }

  /** parseSimpleString, with the scan of a token written as the code's loop. */
  method ParseSimpleString(s: seq<byte>) returns (r: Outcome<seq<byte>>)
    ensures r == G.ParseSimpleString(s)
  {
    if |s| == 0 {
      return Panic;  // s[0]
    }
    var length := -1;
    var t := s;
    if In(s[0], DecimalDigit) {
      var lengthString;
      lengthString, t := ParseDecimal(s);
      var n := Atoi(lengthString);
      if n.None? {
        return Err(LengthOutOfRange);
      }
      length := n.value;
    }
    assert G.ParseSimpleString(s) == G.SimpleStringBody(t, length);
    if |t| == 0 {
      return Panic;  // s[0]
    }
    var inner: Outcome<seq<byte>>;
    if t[0] == Ch(':') {
      if length < 0 {
        return Err(UnspecifiedLength);
      }
      if length + 1 > |t| {
        return Panic;  // s[1 : length+1]
      }
      return Ok(t[1..length + 1], t[length + 1..]);
    } else if t[0] == Ch('#') {
      inner := ParseHexadecimal(t[1..]);
    } else if t[0] == Ch('|') {
      inner := ParseBase64(t[1..]);
    } else if t[0] == Ch('"') {
      inner := ParseQuotedString(t[1..], length);
    } else {
      if In(t[0], TokenChar) {
        var i := ScanToken(t);
        return Ok(t[..i], t[i..]);
      }
      return Err(UnknownChar);
    }
    if !inner.Ok? {
      return if inner.Err? then Err(inner.kind) else Panic;
    }
    if length != -1 {
      if |inner.value| != length {
        return Err(LengthMismatch);
      }
      if length > |t| {
        return Panic;  // s[length:]
      }
      return Ok(inner.value, t[length..]);
    }
    r := inner;
  }

  /** The token loop of parseSimpleString: the index of the first byte after the run of
      token characters that starts at t[0]. */
  method ScanToken(t: seq<byte>) returns (i: nat)
    requires |t| > 0 && In(t[0], TokenChar)
    ensures 1 <= i <= |t| && AllIn(t[..i], TokenChar) && (i < |t| ==> !In(t[i], TokenChar))
    ensures i == Span(t, TokenChar)
  {
    i := 1;
    while i < |t| && In(t[i], TokenChar)
      invariant 1 <= i <= |t|
      invariant AllIn(t[..i], TokenChar)
    {
      i := i + 1;
    }
    assert t[..i] + t[i..] == t;
    SpanOfRun(t[..i], t[i..], TokenChar);
  }

  /** parseDecimal: the maximal run of digits and what follows it. Where the code returns a
      nil rest (every byte a digit) the method returns [], which every caller indexes alike. */
  method ParseDecimal(s: seq<byte>) returns (decimal: seq<byte>, rest: seq<byte>)
    ensures decimal + rest == s
    ensures AllIn(decimal, DecimalDigit) && (rest == [] || !In(rest[0], DecimalDigit))
    ensures decimal == s[..Span(s, DecimalDigit)] && rest == s[Span(s, DecimalDigit)..]
  {
    for i := 0 to |s|
      invariant AllIn(s[..i], DecimalDigit)
    {
      if !In(s[i], DecimalDigit) {
        assert s[..i] + s[i..] == s;
        SpanOfRun(s[..i], s[i..], DecimalDigit);
        return s[..i], s[i..];
      }
    }
    assert s[..|s|] == s && s + [] == s;
    SpanOfRun(s, [], DecimalDigit);
    return s, [];
  }

  /** parseHexadecimal */
  method ParseHexadecimal(s: seq<byte>) returns (r: Outcome<seq<byte>>)
    ensures r == G.ParseHexadecimal(s)
  {
    for i := 0 to |s|
      invariant AllIn(s[..i], HexadecimalDigit)
    {
      if !In(s[i], HexadecimalDigit) {
        assert s[..i] + s[i..] == s;
        SpanOfRun(s[..i], s[i..], HexadecimalDigit);
        if s[i] != Ch('#') {
          return Err(HexTerminator);
        }
        var str := HexDecode(s[..i]);
        if str.None? {
          return Err(HexOddLength);
        }
        return Ok(str.value, s[i + 1..]);
      }
    }
    assert s[..|s|] == s && s + [] == s;
    SpanOfRun(s, [], HexadecimalDigit);
    return Err(HexEnd);
  }

  /** parseBase64: the loop tests the hexadecimal table, as the code does. */
  method ParseBase64(s: seq<byte>) returns (r: Outcome<seq<byte>>)
    ensures r == G.ParseBase64(s)
  {
    for i := 0 to |s|
      invariant AllIn(s[..i], HexadecimalDigit)
    {
      if !In(s[i], HexadecimalDigit) {
        assert s[..i] + s[i..] == s;
        SpanOfRun(s[..i], s[i..], HexadecimalDigit);
        if s[i] != Ch('|') {
          return Err(Base64Terminator);
        }
        var base64 := s[..i];
        var length := Base64DecodedLen(base64);
        if length.None? {
          return Err(Base64Corrupt);
        }
        assert base64[..length.value] == s[..length.value];
        return Ok(base64[..length.value], s[i..]);
      }
    }
    assert s[..|s|] == s && s + [] == s;
    SpanOfRun(s, [], HexadecimalDigit);
    return Err(Base64End);
  }

  /** parseQuotedString: `i` is advanced inside the escape handling as in the code, and the
      loop's own step follows every iteration that does not return. */
  method ParseQuotedString(s: seq<byte>, length: int) returns (r: Outcome<seq<byte>>)
    ensures r == G.ParseQuotedString(s, length)
  {
    var acc := G.Prefill(length);
    var i := 0;
    while i < |s|
      invariant 0 <= i <= |s|
      invariant G.QuotedFrom(s, i, acc, length) == G.ParseQuotedString(s, length)
      decreases |s| - i
    {
      var c := s[i];
      if c == Ch('"') {
        if length != -1 && |acc| != length {
          return Err(LengthMismatch);
        }
        return Ok(acc, s[i + 1..]);
      } else if c == Ch('\\') {
        i := i + 1;
        if i == |s| {
          return Err(UnterminatedEscape);
        }
        c := s[i];
        var plain := G.Unescape(c);
        if plain.Some? {
          acc := acc + [plain.value];
        } else if c == Ch('\n') {
          if i + 1 < |s| && s[i + 1] == Ch('\r') {
            i := i + 1;
          }
        } else if c == Ch('\r') {
          if i + 1 < |s| && s[i + 1] == Ch('\n') {
            i := i + 1;
          }
        } else if c == Ch('x') {
          if i + 2 > |s| {
            return Panic;  // s[i+1:i+2]
          }
          var num := ParseHexDigit(s[i + 1]);
          if num.None? {
            return Err(BadHexEscape);
          }
          acc := acc + [num.value];
        } else {
          if In(c, OctalDigit) {
            if i + 1 >= |s| {
              return Panic;  // s[i+1]
            }
            if In(s[i + 1], OctalDigit) && i + 2 >= |s| {
              return Panic;  // s[i+2]
            }
          }
          return Err(UnrecognisedEscape);
        }
      } else {
        acc := acc + [c];
      }
      i := i + 1;
    }
    r := Err(UnterminatedQuoted);
  }
}
