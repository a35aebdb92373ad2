/** What the simple-string scanners of canonical.go accept and return, stated over whole
    families of inputs. */
module ScannerProperties {
  import opened Bytes
  import opened Conversions
  import opened Grammar

  /** A run of digits whose value strconv.Atoi accepts, in front of a byte that is not a
      digit, selects the branch for that byte with the run's value as the length. */
  lemma DigitsPrefix(ds: seq<byte>, s: seq<byte>)
    requires |ds| > 0 && AllIn(ds, DecimalDigit) && DecimalValue(ds) <= MaxInt
    requires |s| > 0 && !In(s[0], DecimalDigit)
    ensures ParseSimpleString(ds + s) == SimpleStringBody(s, DecimalValue(ds))
  {
    var all := ds + s;
    SpanOfRun(ds, s, DecimalDigit);
    assert all[..|ds|] == ds && all[|ds|..] == s;
  }

  /** A decimal length in front of a byte that is not a digit selects the branch for that
      byte with the length as written. */
  lemma LengthPrefix(n: nat, s: seq<byte>)
    requires n <= MaxInt && |s| > 0 && !In(s[0], DecimalDigit)
    ensures ParseSimpleString(Itoa(n) + s) == SimpleStringBody(s, n)
  {
    ItoaDecimal(n);
    DigitsPrefix(Itoa(n), s);
  }

  /** The `:` branch with a length the input can hold. */
  lemma RawBody(s: seq<byte>, n: nat)
    requires |s| > n && s[0] == Ch(':')
    ensures SimpleStringBody(s, n) == Ok(s[1..n + 1], s[n + 1..])
  {
  }

  /** Raw strings: `len:` followed by exactly len bytes gives those bytes back, whatever they
      are, and the rest after them. */
  lemma RawStringRoundTrip(v: seq<byte>, t: seq<byte>)
    requires |v| <= MaxInt
    ensures ParseSimpleString(Itoa(|v|) + [Ch(':')] + v + t) == Ok(v, t)
  {
    var s := [Ch(':')] + v + t;
    ColonPieces(v, t);
    Prepend(Itoa(|v|), Ch(':'), v, t);
    calc {
      ParseSimpleString(Itoa(|v|) + [Ch(':')] + v + t);
      ParseSimpleString(Itoa(|v|) + s);
      { LengthPrefix(|v|, s); }
      SimpleStringBody(s, |v|);
      { RawBody(s, |v|); }
      Ok(v, t);
    }
  }

  lemma ColonPieces(v: seq<byte>, t: seq<byte>)
    ensures |[Ch(':')] + v + t| > |v| && ([Ch(':')] + v + t)[0] == Ch(':')
    ensures ([Ch(':')] + v + t)[1..|v| + 1] == v && ([Ch(':')] + v + t)[|v| + 1..] == t
  {
  }

  lemma Prepend(p: seq<byte>, c: byte, v: seq<byte>, t: seq<byte>)
    ensures p + [c] + v + t == p + ([c] + v + t)
  {
  }

  /** A raw string needs an explicit length; `:` is also a token character, but the raw
      branch is taken first. */
  lemma RawStringNeedsLength(t: seq<byte>)
    ensures In(Ch(':'), TokenChar)
    ensures ParseSimpleString([Ch(':')] + t) == Err(UnspecifiedLength)
  {
  }

  /** A raw string shorter than its length is sliced out of range. */
  lemma RawStringTruncated(n: nat, v: seq<byte>)
    requires |v| < n <= MaxInt
    ensures ParseSimpleString(Itoa(n) + [Ch(':')] + v) == Panic
  {
    var s := [Ch(':')] + v;
    LengthPrefix(n, s);
    assert Itoa(n) + [Ch(':')] + v == Itoa(n) + s;
    assert s[0] == Ch(':') && n + 1 > |s|;
    assert SimpleStringBody(s, n) == Panic;
  }

  /** When nothing follows the digits, parseDecimal's rest is nil and the next index panics,
      unless strconv.Atoi has already rejected the length. */
  lemma AllDigits(ds: seq<byte>)
    requires |ds| > 0 && AllIn(ds, DecimalDigit)
    ensures ParseSimpleString(ds) == if DecimalValue(ds) <= MaxInt then Panic else Err(LengthOutOfRange)
  {
    SpanOfRun(ds, [], DecimalDigit);
    assert ds + [] == ds && ds[..|ds|] == ds;
  }

  /** The token branch: the longest run of token characters, whatever the length. */
  lemma TokenBody(s: seq<byte>, length: int)
    requires length >= -1 && |s| > 0 && In(s[0], TokenChar)
    requires s[0] != Ch(':') && s[0] != Ch('#') && s[0] != Ch('|') && s[0] != Ch('"')
    ensures SimpleStringBody(s, length) == Ok(s[..Span(s, TokenChar)], s[Span(s, TokenChar)..])
  {
  }

  /** A token is the longest run of token characters, and any decimal length in front of
      it is read and then ignored. */
  lemma TokenIgnoresLength(ds: seq<byte>, s: seq<byte>)
    requires AllIn(ds, DecimalDigit) && (|ds| == 0 || DecimalValue(ds) <= MaxInt)
    requires |s| > 0 && In(s[0], TokenChar) && !In(s[0], DecimalDigit) && s[0] != Ch(':')
    ensures ParseSimpleString(ds + s) == Ok(s[..Span(s, TokenChar)], s[Span(s, TokenChar)..])
  {
    if |ds| == 0 {
      assert ds + s == s;
      TokenBody(s, -1);
    } else {
      var r := SimpleStringBody(s, DecimalValue(ds));
      TokenBody(s, DecimalValue(ds));
      assert r == Ok(s[..Span(s, TokenChar)], s[Span(s, TokenChar)..]);
      DigitsPrefix(ds, s);
      assert ParseSimpleString(ds + s) == r;
    }
  }

  /** What parseHexadecimal does with every input that holds a byte outside the hexadecimal
      table: the run before it is decoded if that byte is `#` and the run is even. */
  lemma HexadecimalOutcome(ds: seq<byte>, c: byte, t: seq<byte>)
    requires AllIn(ds, HexadecimalDigit) && !In(c, HexadecimalDigit)
    ensures ParseHexadecimal(ds + [c] + t) ==
      if c != Ch('#') then Err(HexTerminator)
      else if |ds| % 2 == 1 then Err(HexOddLength)
      else Ok(HexPairs(ds), t)
  {
    var s := ds + [c] + t;
    SpanOfRun(ds, [c] + t, HexadecimalDigit);
    assert ds + [c] + t == ds + ([c] + t);
    assert s[..|ds|] == ds && s[|ds|] == c && s[|ds| + 1..] == t;
  }

  /** A run of hexadecimal digits that never ends is an error. */
  lemma HexadecimalUnterminated(ds: seq<byte>)
    requires AllIn(ds, HexadecimalDigit)
    ensures ParseHexadecimal(ds) == Err(HexEnd)
  {
    SpanOfRun(ds, [], HexadecimalDigit);
    assert ds + [] == ds;
  }

  /** `#` hex `#` gives back the bytes whose hex.Encode form sits between the marks. */
  lemma HexStringRoundTrip(v: seq<byte>, t: seq<byte>)
    ensures ParseSimpleString([Ch('#')] + HexEncode(v) + [Ch('#')] + t) == Ok(v, t)
  {
    var e := HexEncode(v);
    var s := [Ch('#')] + e + [Ch('#')] + t;
    Framed(Ch('#'), e, Ch('#'), t);
    HexadecimalOutcome(e, Ch('#'), t);
    HexDecodeEncode(v);
    assert ParseHexadecimal(s[1..]) == Ok(v, t);
    assert ParseSimpleString(s) == SimpleStringBody(s, -1);
  }

  /** The `#` branch under an explicit length: the decoded bytes must be `n` long, and the
      rest is cut `n` bytes into the input, counted from the opening `#`. */
  lemma HexLengthBody(n: nat, e: seq<byte>, v: seq<byte>, t: seq<byte>)
    requires ParseHexadecimal(e + [Ch('#')] + t) == Ok(v, t)
    ensures SimpleStringBody([Ch('#')] + e + [Ch('#')] + t, n) ==
      if |v| != n then Err(LengthMismatch)
      else if n > |e| + 2 + |t| then Panic
      else Ok(v, ([Ch('#')] + e + [Ch('#')] + t)[n..])
  {
    Framed(Ch('#'), e, Ch('#'), t);
  }

  /** The pieces of a string framed by two marker bytes. */
  lemma Framed(open: byte, e: seq<byte>, close: byte, t: seq<byte>)
    ensures ([open] + e + [close] + t)[0] == open
    ensures ([open] + e + [close] + t)[1..] == e + [close] + t
    ensures |[open] + e + [close] + t| == |e| + 2 + |t|
  {
    assert [open] + e + [close] + t == [open] + (e + [close] + t);
  }

  /** parseHexadecimal inverts hex.Encode. */
  lemma HexadecimalOfEncoded(v: seq<byte>, t: seq<byte>)
    ensures ParseHexadecimal(HexEncode(v) + [Ch('#')] + t) == Ok(v, t)
  {
    HexadecimalOutcome(HexEncode(v), Ch('#'), t);
    HexDecodeEncode(v);
  }

  /** LengthPrefix for a string between two `#`. */
  lemma LengthBeforeHex(n: nat, e: seq<byte>, t: seq<byte>)
    requires n <= MaxInt
    ensures ParseSimpleString(Itoa(n) + [Ch('#')] + e + [Ch('#')] + t) ==
      SimpleStringBody([Ch('#')] + e + [Ch('#')] + t, n)
  {
    Framed(Ch('#'), e, Ch('#'), t);
    Regroup(Itoa(n), Ch('#'), e, Ch('#'), t);
    LengthPrefix(n, [Ch('#')] + e + [Ch('#')] + t);
  }

  lemma Regroup(p: seq<byte>, open: byte, e: seq<byte>, close: byte, t: seq<byte>)
    ensures p + [open] + e + [close] + t == p + ([open] + e + [close] + t)
  {
  }

  lemma HexEncodedBody(n: nat, v: seq<byte>, t: seq<byte>)
    ensures SimpleStringBody([Ch('#')] + HexEncode(v) + [Ch('#')] + t, n) ==
      if n != |v| then Err(LengthMismatch)
      else Ok(v, ([Ch('#')] + HexEncode(v) + [Ch('#')] + t)[n..])
  {
    HexadecimalOfEncoded(v, t);
    HexLengthBody(n, HexEncode(v), v, t);
  }

  /** With an explicit length the hexadecimal string is checked against it, and on success
      the rest is cut `n` bytes after the digits, from the opening `#`, not after the closing
      `#`. */
  lemma HexStringExplicitLength(n: nat, v: seq<byte>, t: seq<byte>)
    requires n <= MaxInt
    ensures ParseSimpleString(Itoa(n) + [Ch('#')] + HexEncode(v) + [Ch('#')] + t) ==
      if n != |v| then Err(LengthMismatch)
      else Ok(v, ([Ch('#')] + HexEncode(v) + [Ch('#')] + t)[n..])
  {
    LengthBeforeHex(n, HexEncode(v), t);
    HexEncodedBody(n, v, t);
  }

  /** What parseBase64 does with every input that holds a byte outside the hexadecimal
      table: a whole number of four-character groups before a `|` yields a prefix of the
      encoded run itself, three bytes per group, and the `|` stays in the rest. */
  lemma Base64Outcome(ds: seq<byte>, c: byte, t: seq<byte>)
    requires AllIn(ds, HexadecimalDigit) && !In(c, HexadecimalDigit)
    ensures ParseBase64(ds + [c] + t) ==
      if c != Ch('|') then Err(Base64Terminator)
      else if |ds| % 4 != 0 then Err(Base64Corrupt)
      else Ok(ds[..|ds| / 4 * 3], [c] + t)
  {
    var s := ds + [c] + t;
    SpanOfRun(ds, [c] + t, HexadecimalDigit);
    assert ds + [c] + t == ds + ([c] + t);
    assert s[..|ds|] == ds && s[|ds|] == c && s[|ds|..] == [c] + t;
    assert s[..|ds| / 4 * 3] == ds[..|ds| / 4 * 3];
  }

  /** "Zm9v", the base64 form of "foo", is refused at its first letter outside 0-9a-fA-F. */
  lemma Base64AlphabetIsHexTable()
    ensures ParseBase64(Ascii("Zm9v|")) == Err(Base64Terminator)
  {
    assert Span(Ascii("Zm9v|"), HexadecimalDigit) == 0;
  }

  /** A reference quoting of arbitrary bytes: `"` and `\` are escaped, every other byte is
      written as it is. The code has no quoting encoder; this is the inverse against which
      parseQuotedString is checked. */
  function QuoteBody(v: seq<byte>): seq<byte> {
    if |v| == 0 then []
    else (if v[0] == Ch('"') || v[0] == Ch('\\') then [Ch('\\'), v[0]] else [v[0]]) + QuoteBody(v[1..])
  }

  lemma {:induction false} QuotedFromBody(s: seq<byte>, i: nat, acc: seq<byte>, v: seq<byte>, t: seq<byte>)
    requires i <= |s| && s[i..] == QuoteBody(v) + [Ch('"')] + t
    ensures QuotedFrom(s, i, acc, -1) == Ok(acc + v, t)
    decreases |v|
  {
    if |v| == 0 {
      assert s[i] == Ch('"') && s[i + 1..] == t && acc + v == acc;
    } else {
      var b := v[0];
      var tail := QuoteBody(v[1..]) + [Ch('"')] + t;
      if b == Ch('"') || b == Ch('\\') {
        assert QuoteBody(v) == [Ch('\\'), b] + QuoteBody(v[1..]);
        assert s[i..] == [Ch('\\'), b] + tail;
        QuotedStepEscaped(s, i, acc, b, tail);
        QuotedFromBody(s, i + 2, acc + [b], v[1..], t);
      } else {
        assert QuoteBody(v) == [b] + QuoteBody(v[1..]);
        assert s[i..] == [b] + tail;
        QuotedStepPlain(s, i, acc, b, tail);
        QuotedFromBody(s, i + 1, acc + [b], v[1..], t);
      }
      assert acc + [b] + v[1..] == acc + v;
    }
  }

  lemma QuotedStepEscaped(s: seq<byte>, i: nat, acc: seq<byte>, b: byte, tail: seq<byte>)
    requires i <= |s| && s[i..] == [Ch('\\'), b] + tail && (b == Ch('"') || b == Ch('\\'))
    ensures i + 2 <= |s| && s[i + 2..] == tail
    ensures QuotedFrom(s, i, acc, -1) == QuotedFrom(s, i + 2, acc + [b], -1)
  {
    assert s[i] == Ch('\\') && s[i + 1] == b && s[i + 2..] == tail;
    assert Unescape(b) == Some(b);
  }

  lemma QuotedStepPlain(s: seq<byte>, i: nat, acc: seq<byte>, b: byte, tail: seq<byte>)
    requires i <= |s| && s[i..] == [b] + tail && b != Ch('"') && b != Ch('\\')
    ensures i + 1 <= |s| && s[i + 1..] == tail
    ensures QuotedFrom(s, i, acc, -1) == QuotedFrom(s, i + 1, acc + [b], -1)
  {
    assert s[i] == b && s[i + 1..] == tail;
  }

  /** Every byte sequence survives quoting: unescaped bytes are copied verbatim and `\"`,
      `\\` each yield their byte. */
  lemma QuotedRoundTrip(v: seq<byte>, t: seq<byte>)
    ensures ParseQuotedString(QuoteBody(v) + [Ch('"')] + t, -1) == Ok(v, t)
  {
    var s := QuoteBody(v) + [Ch('"')] + t;
    assert s[0..] == s && Prefill(-1) == [] && [] + v == v;
    QuotedFromBody(s, 0, [], v, t);
  }

  /** One step of the escape handling after a backslash at `i`. */
  lemma QuotedEscape(s: seq<byte>, i: nat, acc: seq<byte>, length: int)
    requires i + 1 < |s| && s[i] == Ch('\\')
    ensures Unescape(s[i + 1]).Some? ==>
      QuotedFrom(s, i, acc, length) == QuotedFrom(s, i + 2, acc + [Unescape(s[i + 1]).value], length)
    ensures s[i + 1] == Ch('\n') ==>
      QuotedFrom(s, i, acc, length) ==
      QuotedFrom(s, if i + 2 < |s| && s[i + 2] == Ch('\r') then i + 3 else i + 2, acc, length)
    ensures s[i + 1] == Ch('\r') ==>
      QuotedFrom(s, i, acc, length) ==
      QuotedFrom(s, if i + 2 < |s| && s[i + 2] == Ch('\n') then i + 3 else i + 2, acc, length)
    ensures Unescape(s[i + 1]).None? && s[i + 1] != Ch('\n') && s[i + 1] != Ch('\r') && s[i + 1] != Ch('x') ==>
      QuotedFrom(s, i, acc, length) == Err(UnrecognisedEscape) || QuotedFrom(s, i, acc, length) == Panic
    ensures s[i + 1] == Ch('x') && i + 2 < |s| && ParseHexDigit(s[i + 2]).Some? ==>
      QuotedFrom(s, i, acc, length) == QuotedFrom(s, i + 2, acc + [ParseHexDigit(s[i + 2]).value], length)
    ensures s[i + 1] == Ch('x') && i + 2 < |s| && ParseHexDigit(s[i + 2]).None? ==>
      QuotedFrom(s, i, acc, length) == Err(BadHexEscape)
    ensures s[i + 1] == Ch('x') && i + 2 == |s| ==> QuotedFrom(s, i, acc, length) == Panic
  {
  }

  /** An escape from the table, alone in a quoted string, yields its one byte. */
  lemma SingleEscape(c: byte, t: seq<byte>)
    requires Unescape(c).Some?
    ensures ParseQuotedString([Ch('\\'), c, Ch('"')] + t, -1) == Ok([Unescape(c).value], t)
  {
    var s := [Ch('\\'), c, Ch('"')] + t;
    assert [] + [Unescape(c).value] == [Unescape(c).value];
    assert QuotedFrom(s, 0, [], -1) == QuotedFrom(s, 2, [Unescape(c).value], -1);
    assert s[3..] == t;
  }

  /** The table of single-byte escapes: \b \t \v \n \f \r \" \' \\ and nothing else among
      the letters the code names. */
  lemma EscapeTable()
    ensures Unescape(Ch('b')) == Some(8) && Unescape(Ch('t')) == Some(9)
    ensures Unescape(Ch('v')) == Some(11) && Unescape(Ch('n')) == Some(10)
    ensures Unescape(Ch('f')) == Some(12) && Unescape(Ch('r')) == Some(13)
    ensures Unescape(Ch('"')) == Some(Ch('"')) && Unescape(Ch('\'')) == Some(Ch('\''))
    ensures Unescape(Ch('\\')) == Some(Ch('\\'))
    ensures Unescape(Ch('x')).None? && Unescape(Ch('\n')).None? && Unescape(Ch('\r')).None?
    ensures forall c: byte :: In(c, OctalDigit) ==> Unescape(c).None?
  {
  }

  /** `\x` reads one hexadecimal digit and does not step over it, so the digit is copied as
      well. */
  lemma HexEscapeKeepsDigit()
    ensures ParseQuotedString([Ch('\\'), Ch('x'), Ch('4'), Ch('1'), Ch('"')], -1) == Ok([4, Ch('4'), Ch('1')], [])
  {
    var s := [Ch('\\'), Ch('x'), Ch('4'), Ch('1'), Ch('"')];
    assert [] + [4] == [4] && [4] + [Ch('4')] == [4, Ch('4')];
    assert [4, Ch('4')] + [Ch('1')] == [4, Ch('4'), Ch('1')];
    assert QuotedFrom(s, 0, [], -1) == QuotedFrom(s, 2, [4], -1);
    assert QuotedFrom(s, 2, [4], -1) == QuotedFrom(s, 3, [4, Ch('4')], -1);
    assert QuotedFrom(s, 3, [4, Ch('4')], -1) == QuotedFrom(s, 4, [4, Ch('4'), Ch('1')], -1);
  }

  /** Octal escapes are errors, and a truncated octal or `\x` escape looks past the end of
      the input. */
  lemma TruncatedEscapes()
    ensures ParseQuotedString([Ch('\\'), Ch('1'), Ch('0'), Ch('1'), Ch('"')], -1) == Err(UnrecognisedEscape)
    ensures ParseQuotedString([Ch('\\'), Ch('1')], -1) == Panic
    ensures ParseQuotedString([Ch('\\'), Ch('1'), Ch('2')], -1) == Panic
    ensures ParseQuotedString([Ch('\\'), Ch('x')], -1) == Panic
  {
  }

  /** A backslash before LF CR, or before CR LF, adds nothing. */
  lemma LineContinuations(t: seq<byte>)
    ensures ParseQuotedString([Ch('\\'), Ch('\n'), Ch('\r'), Ch('"')] + t, -1) == Ok([], t)
    ensures ParseQuotedString([Ch('\\'), Ch('\r'), Ch('\n'), Ch('"')] + t, -1) == Ok([], t)
  {
    var s1 := [Ch('\\'), Ch('\n'), Ch('\r'), Ch('"')] + t;
    assert QuotedFrom(s1, 0, [], -1) == QuotedFrom(s1, 3, [], -1);
    assert s1[4..] == t;
    var s2 := [Ch('\\'), Ch('\r'), Ch('\n'), Ch('"')] + t;
    assert QuotedFrom(s2, 0, [], -1) == QuotedFrom(s2, 3, [], -1);
    assert s2[4..] == t;
  }

  /** Without a closing quote, plain bytes run into the end of the input. */
  lemma {:induction false} QuotedUnterminated(s: seq<byte>, i: nat, acc: seq<byte>, length: int)
    requires i <= |s|
    requires forall j :: i <= j < |s| ==> s[j] != Ch('"') && s[j] != Ch('\\')
    ensures QuotedFrom(s, i, acc, length) == Err(UnterminatedQuoted)
    decreases |s| - i
  {
    if i < |s| {
      QuotedUnterminated(s, i + 1, acc + [s[i]], length);
    }
  }

  /** Whatever the escapes, the loop succeeds only at an unescaped `"`, which it consumes: the
      byte just before the rest is that quote. */
  lemma {:induction false} QuotedClosed(s: seq<byte>, i: nat, acc: seq<byte>, length: int)
    requires i <= |s|
    ensures QuotedFrom(s, i, acc, length).Ok? ==>
      |QuotedFrom(s, i, acc, length).rest| < |s| - i &&
      s[|s| - |QuotedFrom(s, i, acc, length).rest| - 1] == Ch('"')
    decreases |s| - i
  {
    if i == |s| || s[i] == Ch('"') {
    } else if s[i] == Ch('\\') {
      if i + 1 < |s| {
        var c := s[i + 1];
        if Unescape(c).Some? {
          QuotedClosed(s, i + 2, acc + [Unescape(c).value], length);
        } else if c == Ch('\n') || c == Ch('\r') {
          QuotedClosed(s, if i + 2 < |s| && s[i + 2] == Ch(if c == Ch('\n') then '\r' else '\n') then i + 3 else i + 2, acc, length);
        } else if c == Ch('x') && i + 3 <= |s| && ParseHexDigit(s[i + 2]).Some? {
          QuotedClosed(s, i + 2, acc + [ParseHexDigit(s[i + 2]).value], length);
        }
      }
    } else {
      QuotedClosed(s, i + 1, acc + [s[i]], length);
    }
  }

  /** A quoted string with no `"` byte after its opening quote never succeeds: it ends in an
      error or a panic, whatever escapes it holds. */
  lemma QuotedNeedsClosingQuote(s: seq<byte>, length: int)
    requires forall j :: 0 <= j < |s| ==> s[j] != Ch('"')
    ensures !ParseQuotedString(s, length).Ok?
  {
    QuotedClosed(s, 0, Prefill(length), length);
  }

  /** The outcome of the loop when the accumulator starts with `pre` and the explicit length
      is `n`, in terms of its outcome from an empty start without a length: the decoded bytes
      follow `pre`, and the whole must be `n` long. */
  function WithLength(o: Outcome<seq<byte>>, pre: seq<byte>, n: nat): Outcome<seq<byte>> {
    match o
    case Ok(v, t) => if |pre| + |v| == n then Ok(pre + v, t) else Err(LengthMismatch)
    case Err(k) => Err(k)
    case Panic => Panic
  }

  lemma {:induction false} QuotedFromLength(s: seq<byte>, i: nat, pre: seq<byte>, acc: seq<byte>, n: nat)
    requires i <= |s|
    ensures QuotedFrom(s, i, pre + acc, n) == WithLength(QuotedFrom(s, i, acc, -1), pre, n)
    decreases |s| - i
  {
    if i == |s| || s[i] == Ch('"') {
    } else if s[i] == Ch('\\') {
      if i + 1 < |s| {
        var c := s[i + 1];
        if Unescape(c).Some? {
          assert pre + acc + [Unescape(c).value] == pre + (acc + [Unescape(c).value]);
          QuotedFromLength(s, i + 2, pre, acc + [Unescape(c).value], n);
        } else if c == Ch('\n') || c == Ch('\r') {
          QuotedFromLength(s, if i + 2 < |s| && s[i + 2] == Ch(if c == Ch('\n') then '\r' else '\n') then i + 3 else i + 2, pre, acc, n);
        } else if c == Ch('x') && i + 3 <= |s| && ParseHexDigit(s[i + 2]).Some? {
          var b := ParseHexDigit(s[i + 2]).value;
          assert pre + acc + [b] == pre + (acc + [b]);
          QuotedFromLength(s, i + 2, pre, acc + [b], n);
        }
      }
    } else {
      assert pre + acc + [s[i]] == pre + (acc + [s[i]]);
      QuotedFromLength(s, i + 1, pre, acc + [s[i]], n);
    }
  }

  /** An explicit length changes the quoted string's outcome only by the prefilled zero bytes
      and the length check. A positive length is therefore met only by a string whose
      content decodes to nothing, and then yields that many zero bytes. */
  lemma QuotedExplicitLength(s: seq<byte>, n: nat)
    ensures ParseQuotedString(s, n) == WithLength(ParseQuotedString(s, -1), Prefill(n), n)
    ensures n > 0 && ParseQuotedString(s, n).Ok? ==>
      ParseQuotedString(s, -1).Ok? && ParseQuotedString(s, -1).value == [] &&
      ParseQuotedString(s, n).value == Prefill(n)
  {
    QuotedFromLength(s, 0, Prefill(n), [], n);
    assert Prefill(n) + [] == Prefill(n);
  }

  /** `0""` is an empty string whose rest starts at the quotes again. */
  lemma QuotedZeroLength()
    ensures ParseSimpleString([Ch('0'), Ch('"'), Ch('"')]) == Ok([], [Ch('"'), Ch('"')])
  {
    var q := [Ch('"'), Ch('"')];
    assert Itoa(0) + q == [Ch('0'), Ch('"'), Ch('"')];
    LengthPrefix(0, q);
    QuotedBody(q, 0);
  }

  /** `5""` matches its five prefilled zero bytes and then slices past the end of the
      input. */
  lemma QuotedPrefilledLength()
    ensures ParseSimpleString([Ch('5'), Ch('"'), Ch('"')]) == Panic
  {
    var q := [Ch('"'), Ch('"')];
    assert Itoa(5) + q == [Ch('5'), Ch('"'), Ch('"')];
    LengthPrefix(5, q);
    QuotedBody(q, 5);
  }

  /** `""` under an explicit length `n`: `n` zero bytes, and the rest cut `n` bytes into the
      quotes. */
  lemma QuotedBody(q: seq<byte>, n: nat)
    requires q == [Ch('"'), Ch('"')]
    ensures SimpleStringBody(q, n) == if n > 2 then Panic else Ok(Prefill(n), q[n..])
  {
    assert q[1..] == [Ch('"')];
    assert QuotedFrom(q[1..], 0, Prefill(n), n) == Ok(Prefill(n), []);
  }
}
