/** The library conversions the codec calls, stated by what they compute:
    strconv.Itoa and strconv.Atoi on decimal digits, strconv.ParseInt on one hexadecimal
    digit, hex.Decode (section 8 of RFC 4648) and the length and error outcome of
    base64.StdEncoding.Decode (section 4 of RFC 4648). */
module Conversions {
  import opened Bytes

  datatype Option<T> = None | Some(value: T)

  /** The largest value of Go's `int` on a 64-bit platform; no slice is longer. */
  const MaxInt: nat := 0x7fff_ffff_ffff_ffff

  function DigitValue(c: byte): (d: nat)
    requires IsDigit(c)
    ensures d < 10
  {
    c - Ch('0')
  }

  function DigitByte(d: nat): (c: byte)
    requires d < 10
    ensures IsDigit(c) && DigitValue(c) == d
  {
    Ch('0') + d
  }

  /** The number denoted by a run of decimal digits, most significant first. */
  function DecimalValue(ds: seq<byte>): nat
    requires AllIn(ds, DecimalDigit)
    decreases |ds|
  {
    if |ds| == 0 then 0
    else DecimalValue(ds[..|ds| - 1]) * 10 + DigitValue(ds[|ds| - 1])
  }

  /** strconv.Atoi applied to a non-empty run of decimal digits: a range error when the
      number does not fit an `int`. */
  function Atoi(ds: seq<byte>): (r: Option<nat>)
    requires |ds| > 0 && AllIn(ds, DecimalDigit)
    ensures r.Some? <==> DecimalValue(ds) <= MaxInt
    ensures r.Some? ==> r.value == DecimalValue(ds) && r.value <= MaxInt
  {
    var n := DecimalValue(ds);
    if n <= MaxInt then Some(n) else None
  }

  /** strconv.Itoa of a non-negative int: its decimal digits without leading zeros. */
  function Itoa(n: nat): (r: seq<byte>)
    ensures |r| > 0 && IsDigit(r[0])
    ensures r[0] == Ch('0') ==> n == 0
    decreases n
  {
    if n < 10 then [DigitByte(n)] else Itoa(n / 10) + [DigitByte(n % 10)]
  }

  /** Itoa yields a non-empty run of digits with no leading zero that denotes `n`. */
  lemma {:induction false} ItoaDecimal(n: nat)
    ensures |Itoa(n)| > 0 && AllIn(Itoa(n), DecimalDigit)
    ensures DecimalValue(Itoa(n)) == n
    ensures Itoa(n)[0] == Ch('0') ==> n == 0
    decreases n
  {
    if n >= 10 {
      ItoaDecimal(n / 10);
      var ds := Itoa(n);
      assert ds[..|ds| - 1] == Itoa(n / 10);
      assert ds[0] == Itoa(n / 10)[0];
    }
  }

  /** Atoi inverts Itoa on every length a slice can have. */
  lemma AtoiItoa(n: nat)
    requires n <= MaxInt
    ensures |Itoa(n)| > 0 && AllIn(Itoa(n), DecimalDigit)
    ensures Atoi(Itoa(n)) == Some(n)
  {
    ItoaDecimal(n);
  }

  function HexDigitValue(c: byte): (v: nat)
    requires IsHexDigit(c)
    ensures v < 16
  {
    if IsDigit(c) then c - Ch('0')
    else if Ch('a') <= c <= Ch('f') then c - Ch('a') + 10
    else c - Ch('A') + 10
  }

  /** strconv.ParseInt(string([]byte{c}), 16, 8): one hexadecimal digit, or a syntax error. */
  function ParseHexDigit(c: byte): (r: Option<byte>)
    ensures r.Some? <==> IsHexDigit(c)
    ensures r.Some? ==> r.value < 16
  {
    if IsHexDigit(c) then Some(HexDigitValue(c)) else None
  }

  /** hex.Decode on a run of hexadecimal digits: an odd count is an error; otherwise each
      pair of digits, high digit first, becomes one byte. */
  function HexDecode(ds: seq<byte>): (r: Option<seq<byte>>)
    requires AllIn(ds, HexadecimalDigit)
    ensures r.Some? <==> |ds| % 2 == 0
  {
    if |ds| % 2 == 1 then None else Some(HexPairs(ds))
  }

  function HexPairs(ds: seq<byte>): (r: seq<byte>)
    requires AllIn(ds, HexadecimalDigit) && |ds| % 2 == 0
    ensures 2 * |r| == |ds|
    ensures forall k :: 0 <= k < |r| ==>
      r[k] == 16 * HexDigitValue(ds[2 * k]) + HexDigitValue(ds[2 * k + 1])
    decreases |ds|
  {
    if |ds| == 0 then []
    else
      var tail := HexPairs(ds[2..]);
      assert forall k :: 1 <= k < |tail| + 1 ==> ds[2..][2 * (k - 1)] == ds[2 * k];
      [16 * HexDigitValue(ds[0]) + HexDigitValue(ds[1])] + tail
  }

  function HexDigitByte(d: nat): (c: byte)
    requires d < 16
    ensures IsHexDigit(c) && HexDigitValue(c) == d
  {
    if d < 10 then Ch('0') + d else Ch('a') + d - 10
  }

  /** hex.Encode: two lower-case digits per byte. It is not called by the codec; it is
      the inverse against which HexDecode is checked. */
  function HexEncode(v: seq<byte>): (ds: seq<byte>)
    ensures |ds| == 2 * |v| && AllIn(ds, HexadecimalDigit)
  {
    if |v| == 0 then []
    else [HexDigitByte(v[0] / 16), HexDigitByte(v[0] % 16)] + HexEncode(v[1..])
  }

  lemma {:induction false} HexDecodeEncode(v: seq<byte>)
    ensures HexDecode(HexEncode(v)) == Some(v)
  {
    if |v| > 0 {
      HexDecodeEncode(v[1..]);
      var ds := HexEncode(v);
      assert ds[0] == HexDigitByte(v[0] / 16) && ds[1] == HexDigitByte(v[0] % 16);
      assert ds[2..] == HexEncode(v[1..]);
      HexPairsCons(ds);
      HexByteDigits(v[0]);
      assert v == [v[0]] + v[1..];
    }
  }

  /** HexPairs of a run of at least two digits: its first byte, then the rest. */
  lemma HexPairsCons(ds: seq<byte>)
    requires |ds| >= 2 && AllIn(ds, HexadecimalDigit) && |ds| % 2 == 0
    ensures HexPairs(ds) == [16 * HexDigitValue(ds[0]) + HexDigitValue(ds[1])] + HexPairs(ds[2..])
  {
  }

  lemma HexByteDigits(b: byte)
    ensures 16 * HexDigitValue(HexDigitByte(b / 16)) + HexDigitValue(HexDigitByte(b % 16)) == b
  {
  }

  /** base64.StdEncoding.Decode on text drawn from the alphabet without '=': the padded
      encoding accepts only whole groups of four characters, each of which decodes to
      three bytes. Only the decoded length is observable to the codec. */
  function Base64DecodedLen(text: seq<byte>): (r: Option<nat>)
    requires forall j :: 0 <= j < |text| ==> In(text[j], Base64Char) && text[j] != Ch('=')
    ensures r.Some? ==> r.value <= |text|
  {
    if |text| % 4 == 0 then Some(|text| / 4 * 3) else None
  }
}
