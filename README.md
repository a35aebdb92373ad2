# Canonical S-expressions: a Dafny model of `encoding/sexpr/canonical`

The package reads and writes S-expressions in the octet-string forms of Rivest's S-expression
draft (section 4 of draft-rivest-sexp-00). A tree is an `Atom` or a `List`. An `Atom` has an
optional display hint and a value, both byte strings. A `List` is a sequence of trees.

The encoders write a tree into a `bytes.Buffer`:
- the canonical form writes each string as `len:bytes`, with the hint wrapped in `[ ]`;
- the "advanced" form is the same but drops every hint.

`ParseBytes` reads one tree from the front of a byte string with a recursive-descent parser. It
returns the tree and the unread rest. The parser accepts these string forms:
- raw (`3:abc`);
- token (`abc`);
- hexadecimal (`#616263#`);
- base64 (`|…|`);
- quoted (`"…"`).

Any of them may be preceded by a decimal length.

The model follows the code as written, including where it departs from the draft. Some of those
departures:
- A list leaves its closing `)` in the rest, so a nested list's `)` also ends its parent.
- A display hint is never accepted at the start of an expression.
- An explicit length cuts the rest out of the input instead of taking the scanner's rest.
- The base64 branch measures its run with the hexadecimal table.

Each outcome is one of three:
- `Ok(value, rest)`;
- `Err(kind)`, where `kind` names the error site;
- `Panic`, where the code indexes or slices out of range.

The project has eight modules:
- `Bytes` (bytes.dfy): bytes, the character tables of canonical.go:12-23 as sets, `Span` (the length of the longest run of bytes from one table), and the outcome type.
- `Conversions` (conversions.dfy): the library calls by what they compute. These are `strconv.Itoa`/`Atoi` for a 64-bit `int`, `strconv.ParseInt` of one hexadecimal digit, `hex.Decode`, and the length and error outcome of `base64.StdEncoding.Decode`. It also holds `hex.Encode`, the reference inverse of `hex.Decode`.
- `Sexprs` (sexprs.dfy): the tree.
- `Encoder` (encoder.dfy): the functions `Canonical` and `Advanced`, a `Buffer` class for `bytes.Buffer`, and methods for `toCanonical`/`toAdvanced` that append to it.
- `Grammar` (grammar.dfy): one function per parsing function of the code, with the code's branches in the same order. parseDecimal has no function of its own: `Grammar.ParseSimpleString` takes the `Bytes.Span` of the input over the decimal digits and slices the input there.
- `Parser` (parser.dfy): methods with the code's loops. Each parsing method is proved to return what its `Grammar` function returns. The two loops with no `Grammar` function of their own, `Parser.ParseDecimal` (parseDecimal) and `Parser.ScanToken` (the token loop of parseSimpleString), are proved against `Bytes.Span`.
- `ScannerProperties` and `ParserProperties`: what the scanners and the parser do to whole classes of inputs. This covers round trips from the encoders, error outcomes and panics.

## Model

| member | source | states |
|---|---|---|
| Bytes.In | encoding/sexpr/canonical/canonical.go:12-23 | membership in one of the package tables, `bytes.IndexByte(t, c) > -1`: each table is the set of bytes its literal and its `append` chain spell out |
| Bytes.Span | encoding/sexpr/canonical/canonical.go:178 | where a scanner's loop stops: every byte before the index is in the table, and the byte at it, if any, is not |
| Bytes.SpanOfRun | encoding/sexpr/canonical/canonical.go:198-203 | a run of bytes from the table followed by a byte outside it (or by nothing) has exactly the run's length as its span |
| Conversions.Itoa | encoding/sexpr/canonical/canonical.go:48 | strconv.Itoa of a length is non-empty and starts with a digit, which is `0` only for the length 0 |
| Conversions.Atoi | encoding/sexpr/canonical/canonical.go:158 | strconv.Atoi of a run of digits succeeds exactly when its decimal value fits a 64-bit `int`, and then returns that value |
| Conversions.ItoaDecimal | encoding/sexpr/canonical/canonical.go:48 | strconv.Itoa writes a non-empty run of digits, with no leading zero unless the number is 0, whose decimal value is the number |
| Conversions.AtoiItoa | encoding/sexpr/canonical/canonical.go:158 | strconv.Atoi reads back every length strconv.Itoa writes for a slice |
| Conversions.ParseHexDigit | encoding/sexpr/canonical/canonical.go:292 | strconv.ParseInt of one byte in base 16 succeeds exactly on a hexadecimal digit, with a value below 16 |
| Conversions.HexDecode | encoding/sexpr/canonical/canonical.go:212-216 | hex.Decode fails exactly when the number of digits is odd |
| Conversions.HexPairs | encoding/sexpr/canonical/canonical.go:213 | the decoded bytes are half as many as the digits, and byte k is 16 times digit 2k plus digit 2k+1 |
| Conversions.HexDecodeEncode | encoding/sexpr/canonical/canonical.go:212-217 | hex.Decode inverts hex.Encode on every byte string |
| Conversions.Base64DecodedLen | encoding/sexpr/canonical/canonical.go:230-235 | the decoded length base64 reports is at most the length of the encoded text |
| Sexprs.StripHints | encoding/sexpr/canonical/canonical.go:62-65 | dropping every hint gives a tree without hints |
| Sexprs.StripHintsIdentity | encoding/sexpr/canonical/canonical.go:62-65 | dropping the hints of a tree that has none gives the same tree |
| Encoder.CanonicalAtom | encoding/sexpr/canonical/canonical.go:46-54 | the canonical atom is at least two bytes longer than its value, and starts with `[` exactly when the hint is non-empty and with a digit otherwise |
| Encoder.Canonical | encoding/sexpr/canonical/canonical.go:73-79 | every canonical form has at least two bytes; it starts with `(` exactly when the tree is a list, and a list's form ends with `)` |
| Encoder.CanonicalAll | encoding/sexpr/canonical/canonical.go:75-77 | the children's canonical forms together are at least two bytes per child |
| Encoder.Advanced | encoding/sexpr/canonical/canonical.go:62-65 | every advanced form has at least two bytes; an atom's starts with a digit and holds at least its value's length plus two bytes; it starts with `(` exactly when the tree is a list, and a list's form ends with `)` |
| Encoder.AdvancedAll | encoding/sexpr/canonical/canonical.go:87-93 | the children's advanced forms together are at least two bytes per child |
| Encoder.Buffer.constructor | encoding/sexpr/canonical/canonical.go:41 | a new buffer holds no bytes |
| Encoder.Buffer.Write | encoding/sexpr/canonical/canonical.go:48-53 | a write appends its bytes and never fails |
| Encoder.WriteCanonicalAtom | encoding/sexpr/canonical/canonical.go:46-54 | the buffer gains `[` len `:` hint `]` only when the hint is non-empty, then len `:` value |
| Encoder.WriteCanonicalList | encoding/sexpr/canonical/canonical.go:73-79 | the buffer gains `(`, the children's canonical forms in order with no separator, and `)` |
| Encoder.WriteCanonical | encoding/sexpr/canonical/canonical.go:46-54 | the buffer gains the canonical form of the tree and nothing else changes |
| Encoder.WriteAdvancedAtom | encoding/sexpr/canonical/canonical.go:62-65 | the buffer gains len `:` value; the hint is not written |
| Encoder.WriteAdvancedList | encoding/sexpr/canonical/canonical.go:87-93 | the buffer gains `(`, the children's advanced forms in order with no separator, and `)` |
| Encoder.WriteAdvanced | encoding/sexpr/canonical/canonical.go:62-65 | the buffer gains the advanced form of the tree |
| Encoder.ToCanonical | encoding/sexpr/canonical/canonical.go:40-44 | ToCanonical returns exactly the canonical form of the tree |
| Encoder.ToAdvanced | encoding/sexpr/canonical/canonical.go:56-60 | ToAdvanced returns exactly the advanced form of the tree |
| Encoder.CanonicalAllAppend | encoding/sexpr/canonical/canonical.go:75-77 | one more child appends exactly that child's canonical form |
| Encoder.AdvancedAllAppend | encoding/sexpr/canonical/canonical.go:89-91 | one more child appends exactly that child's advanced form |
| Encoder.CanonicalHintMarker | encoding/sexpr/canonical/canonical.go:47 | the canonical atom starts with `[` if and only if its hint is non-empty; a nil hint and an empty hint give the same bytes |
| Encoder.CanonicalPlainAtom | encoding/sexpr/canonical/canonical.go:52-53 | an atom without a hint is written as len `:` value |
| Encoder.AdvancedIsCanonicalOfStripped | encoding/sexpr/canonical/canonical.go:62-65 | the advanced form of a tree is the canonical form of the same tree with every hint removed |
| Encoder.AdvancedEqualsCanonical | encoding/sexpr/canonical/canonical.go:87-93 | for a tree without hints, ToAdvanced and ToCanonical write the same bytes |
| Encoder.CanonicalHintedSingleton | encoding/sexpr/canonical/canonical.go:47-53 | a list of one hinted atom is `(`, `[` len `:` hint `]`, len `:` value, `)` |
| Encoder.CanonicalEmptyList | encoding/sexpr/canonical/canonical.go:74-78 | the empty list is `()` |
| Encoder.CanonicalToken | encoding/sexpr/canonical/canonical.go:52-53 | the atom `testing` is `7:testing` |
| Encoder.CanonicalHinted | encoding/sexpr/canonical/canonical.go:47-53 | the list holding the atom `test` with hint `text` is `([4:text]4:test)` |
| Grammar.ParseSexpr | encoding/sexpr/canonical/canonical.go:100-112 | on success the rest is a proper suffix of the input |
| Grammar.ParseList | encoding/sexpr/canonical/canonical.go:114-132 | on success the result is a list and the rest is a suffix of the input that starts with `)` |
| Grammar.ParseItems | encoding/sexpr/canonical/canonical.go:117-131 | on success the rest is a suffix of the input that starts with `)` |
| Grammar.ParseAtom | encoding/sexpr/canonical/canonical.go:134-148 | on success the result is an atom and the rest is a proper suffix of the input |
| Grammar.ParseSimpleString | encoding/sexpr/canonical/canonical.go:150-195 | on success the rest is a proper suffix of the input |
| Grammar.SimpleStringBody | encoding/sexpr/canonical/canonical.go:163-194 | on success the rest is a suffix of the input, and a proper one when no length was given |
| Grammar.ParseHexadecimal | encoding/sexpr/canonical/canonical.go:206-221 | on success the rest is a proper suffix: the closing `#` is consumed |
| Grammar.ParseBase64 | encoding/sexpr/canonical/canonical.go:223-239 | on success the rest is a suffix that starts with the closing `\|`, which is not consumed |
| Grammar.Prefill | encoding/sexpr/canonical/canonical.go:242-247 | the accumulator starts as `length` zero bytes when the length is positive, and empty otherwise |
| Grammar.ParseQuotedString | encoding/sexpr/canonical/canonical.go:241-313 | on success the rest is a proper suffix of the input |
| Grammar.QuotedFrom | encoding/sexpr/canonical/canonical.go:248-312 | on success the rest is a proper suffix of the input |
| Grammar.Unescape | encoding/sexpr/canonical/canonical.go:262-280 | exactly nine bytes after a backslash are one-byte escapes; `"`, `'` and the backslash stand for themselves and the six letters for the control bytes 8 to 13 |
| Parser.ParseBytes | encoding/sexpr/canonical/canonical.go:95-98 | returns the outcome of parseSexpr on the input |
| Parser.ParseSexpr | encoding/sexpr/canonical/canonical.go:100-112 | the dispatch on the first byte computes Grammar.ParseSexpr |
| Parser.ParseList | encoding/sexpr/canonical/canonical.go:114-132 | the loop with its reset `i = -1` computes Grammar.ParseList: its invariant is that the loop from index `i` of the current input still yields that outcome |
| Parser.ParseAtom | encoding/sexpr/canonical/canonical.go:134-148 | computes Grammar.ParseAtom, with the value read from where the hint stopped |
| Parser.ParseSimpleString | encoding/sexpr/canonical/canonical.go:150-195 | computes Grammar.ParseSimpleString on every input, including each panic |
| Parser.ScanToken | encoding/sexpr/canonical/canonical.go:176-181 | the loop stops at the first byte that is not a token character; every byte before it is one |
| Parser.ParseDecimal | encoding/sexpr/canonical/canonical.go:197-204 | splits the input into its longest run of leading digits and the rest, which is empty or starts with a non-digit |
| Parser.ParseHexadecimal | encoding/sexpr/canonical/canonical.go:206-221 | the index loop computes Grammar.ParseHexadecimal |
| Parser.ParseBase64 | encoding/sexpr/canonical/canonical.go:223-239 | the index loop computes Grammar.ParseBase64 |
| Parser.ParseQuotedString | encoding/sexpr/canonical/canonical.go:241-313 | the loop, which also moves `i` in the escape handling, computes Grammar.ParseQuotedString |
| ScannerProperties.DigitsPrefix | encoding/sexpr/canonical/canonical.go:152-162 | digits that Atoi accepts, followed by a non-digit, select the string branch for that byte with their value as the length |
| ScannerProperties.LengthPrefix | encoding/sexpr/canonical/canonical.go:152-162 | a length written by Itoa selects the branch of the byte after it, with that length |
| ScannerProperties.RawBody | encoding/sexpr/canonical/canonical.go:164-168 | `:` with a length the input can hold takes exactly that many bytes |
| ScannerProperties.RawStringRoundTrip | encoding/sexpr/canonical/canonical.go:152-168 | `len:` then len bytes reads back as exactly those bytes, whatever they are, and the rest is whatever follows |
| ScannerProperties.RawStringNeedsLength | encoding/sexpr/canonical/canonical.go:164-166 | `:` without a length is an error, although `:` is also a token character |
| ScannerProperties.RawStringTruncated | encoding/sexpr/canonical/canonical.go:168 | a raw string shorter than its length slices out of range |
| ScannerProperties.AllDigits | encoding/sexpr/canonical/canonical.go:150-204 | input made only of digits is an Atoi error if the value is too large, and otherwise indexes the nil rest and panics |
| ScannerProperties.TokenBody | encoding/sexpr/canonical/canonical.go:176-181 | the token branch returns the longest run of token characters, whatever the length |
| ScannerProperties.TokenIgnoresLength | encoding/sexpr/canonical/canonical.go:176-181 | a token is its longest run of token characters (`:` included), and any decimal length before it is not checked |
| ScannerProperties.HexadecimalOutcome | encoding/sexpr/canonical/canonical.go:207-218 | a hexadecimal run ended by a byte other than `#` is an error, an odd run is an error, and otherwise the run decodes pairwise |
| ScannerProperties.HexadecimalUnterminated | encoding/sexpr/canonical/canonical.go:220 | a hexadecimal run that reaches the end of the input is an error |
| ScannerProperties.HexStringRoundTrip | encoding/sexpr/canonical/canonical.go:169-217 | `#` hex.Encode(v) `#` reads back as v, with the rest after the closing `#` |
| ScannerProperties.HexLengthBody | encoding/sexpr/canonical/canonical.go:185-192 | under an explicit length the decoded bytes must be that long, and the rest is cut from the opening `#` |
| ScannerProperties.HexadecimalOfEncoded | encoding/sexpr/canonical/canonical.go:206-217 | parseHexadecimal inverts hex.Encode |
| ScannerProperties.LengthBeforeHex | encoding/sexpr/canonical/canonical.go:152-170 | a length before `#` selects the hexadecimal branch with that length |
| ScannerProperties.HexEncodedBody | encoding/sexpr/canonical/canonical.go:185-192 | the hexadecimal branch of an encoded string under an explicit length is a mismatch error unless the length equals the decoded length |
| ScannerProperties.HexStringExplicitLength | encoding/sexpr/canonical/canonical.go:188-192 | with an explicit length a hexadecimal string is checked against it, and on success the rest starts `length` bytes after the digits, not after the closing `#` |
| ScannerProperties.Base64Outcome | encoding/sexpr/canonical/canonical.go:224-235 | a run ended by a byte other than `\|` is an error; otherwise the result is the prefix of the encoded text as long as its decoding, and the rest keeps the `\|` |
| ScannerProperties.Base64AlphabetIsHexTable | encoding/sexpr/canonical/canonical.go:225-227 | the base64 text `Zm9v` is refused at its first byte outside the hexadecimal table |
| ScannerProperties.QuotedFromBody | encoding/sexpr/canonical/canonical.go:248-310 | from any point where a quoted body begins, the loop appends the unquoted bytes and consumes the closing `"` |
| ScannerProperties.QuotedRoundTrip | encoding/sexpr/canonical/canonical.go:241-313 | unescaped bytes are copied verbatim and `\"`, `\\` are each one byte, so every byte string survives quoting |
| ScannerProperties.QuotedEscape | encoding/sexpr/canonical/canonical.go:256-307 | after a backslash: a table escape appends its byte and steps two; LF and CR each skip their optional partner; `x` with a hex digit appends the digit's value and steps only two, with another byte is an error, and at the end of the input panics; any other escape is an error or a panic |
| ScannerProperties.SingleEscape | encoding/sexpr/canonical/canonical.go:262-309 | a table escape alone in a quoted string yields its one byte |
| ScannerProperties.EscapeTable | encoding/sexpr/canonical/canonical.go:262-280 | the nine one-byte escapes and their bytes; `x`, LF, CR and the octal digits are not among them |
| ScannerProperties.HexEscapeKeepsDigit | encoding/sexpr/canonical/canonical.go:291-309 | `\x41` yields the byte 4 and then copies `4` and `1` as plain bytes |
| ScannerProperties.TruncatedEscapes | encoding/sexpr/canonical/canonical.go:291-305 | an octal escape is an error, and a truncated octal or `\x` escape indexes past the end and panics |
| ScannerProperties.LineContinuations | encoding/sexpr/canonical/canonical.go:281-290 | a backslash before LF CR, or before CR LF, adds nothing |
| ScannerProperties.QuotedUnterminated | encoding/sexpr/canonical/canonical.go:248-312 | plain bytes that run into the end of the input without a closing quote give the unterminated-string error |
| ScannerProperties.QuotedClosed | encoding/sexpr/canonical/canonical.go:248-312 | whatever escapes the body holds, the loop succeeds only at an unescaped `"`: the byte just before the rest is that quote, so the closing quote is consumed |
| ScannerProperties.QuotedNeedsClosingQuote | encoding/sexpr/canonical/canonical.go:241-313 | a quoted string with no `"` byte after its opening quote never succeeds: it ends in an error or a panic |
| ScannerProperties.QuotedFromLength | encoding/sexpr/canonical/canonical.go:243-255 | starting with extra bytes in the accumulator only prepends them, and an explicit length then checks the total |
| ScannerProperties.QuotedExplicitLength | encoding/sexpr/canonical/canonical.go:243-255 | an explicit length changes the outcome only by the prefilled zero bytes and the check of the total length |
| ScannerProperties.QuotedZeroLength | encoding/sexpr/canonical/canonical.go:188-255 | `0""` is the empty string, and the rest starts at the quotes again |
| ScannerProperties.QuotedPrefilledLength | encoding/sexpr/canonical/canonical.go:188-255 | `5""` matches its five prefilled zero bytes and then slices past the end of the input |
| ScannerProperties.QuotedBody | encoding/sexpr/canonical/canonical.go:173-255 | `""` under length n is n zero bytes, with the rest cut n bytes into the input, or a panic when n is past its end |
| ParserProperties.SexprAtAtom | encoding/sexpr/canonical/canonical.go:105-106 | a byte of a simple string other than `(` or `[` starts an atom without a hint |
| ParserProperties.SexprAtParen | encoding/sexpr/canonical/canonical.go:103-104 | `(` starts a list |
| ParserProperties.SexprAtOther | encoding/sexpr/canonical/canonical.go:105-108 | a first byte that is neither `(` nor a string character is an error |
| ParserProperties.ItemsAtClose | encoding/sexpr/canonical/canonical.go:120-121 | the loop stops at `)` and leaves it in the rest |
| ParserProperties.ItemsAtChild | encoding/sexpr/canonical/canonical.go:122-128 | a child that parses is appended, and the loop goes on from its rest |
| ParserProperties.ItemsAtSpace | encoding/sexpr/canonical/canonical.go:117-122 | whitespace is skipped one byte at a time |
| ParserProperties.ItemsAtFailure | encoding/sexpr/canonical/canonical.go:123-126 | a child that fails ends the list with its error |
| ParserProperties.CanonicalStart | encoding/sexpr/canonical/canonical.go:52-74 | a tree without hints is written starting with a digit (an atom) or `(` (a list) |
| ParserProperties.AtomRoundTrip | encoding/sexpr/canonical/canonical.go:100-168 | the canonical form of an atom without a hint reads back as the same atom, however it is followed |
| ParserProperties.ParseBytesOfAtom | encoding/sexpr/canonical/canonical.go:95-204 | ParseBytes(ToCanonical(Atom{Value: v})) gives v back, with an empty hint and an empty rest |
| ParserProperties.ParseCanonical | encoding/sexpr/canonical/canonical.go:100-132 | the canonical form of any tree without hints parses to Reparsed(e), with rest Leftover(e, t): each nested list also closes its parent |
| ParserProperties.ParseCanonicalItems | encoding/sexpr/canonical/canonical.go:117-130 | the loop over the children's canonical forms collects ReparsedItems(xs) and stops where LeftoverItems says |
| ParserProperties.PlainHasNoHints | encoding/sexpr/canonical/canonical.go:47 | a Plain tree has no display hint at any depth; ParseCanonical relies on it |
| ParserProperties.ReparsedIdentity | encoding/sexpr/canonical/canonical.go:121-127 | the parser gives a tree back unchanged if and only if no nested list has a sibling after it |
| ParserProperties.ReparsedItemsIdentity | encoding/sexpr/canonical/canonical.go:121-127 | children come back unchanged if and only if a list child appears only in the last position, throughout |
| ParserProperties.FlatListRoundTrip | encoding/sexpr/canonical/canonical.go:117-131 | a flat list of atoms without hints reads back as the same children, with `)` left at the head of the rest |
| ParserProperties.AtomsLeftover | encoding/sexpr/canonical/canonical.go:121 | after children that are all atoms, the rest is what followed them |
| ParserProperties.NestedListClosesParent | encoding/sexpr/canonical/canonical.go:121-127 | a nested list's `)` ends its parent: the siblings after it are not read and stay in the rest |
| ParserProperties.WhitespaceSkipped | encoding/sexpr/canonical/canonical.go:117-122 | space, tab, CR and LF between children are skipped |
| ParserProperties.UnclosedListFails | encoding/sexpr/canonical/canonical.go:117-131 | with no `)` anywhere in the input a list does not succeed, and whitespace alone is the unterminated-list error |
| ParserProperties.ParsedHasNoHints | encoding/sexpr/canonical/canonical.go:105-142 | no tree parseSexpr returns has a hint: the hint branch of parseAtom is never reached from it |
| ParserProperties.ParsedItemsHaveNoHints | encoding/sexpr/canonical/canonical.go:117-130 | the children parseList collects have no hints |
| ParserProperties.LeadingHintRejected | encoding/sexpr/canonical/canonical.go:105-108 | a leading `[` (a display hint) or `{` (transport) is an unrecognised start |
| ParserProperties.HintedAtomRejected | encoding/sexpr/canonical/canonical.go:105-125 | the canonical form of a hinted atom does not read back, alone or inside a list |
| ParserProperties.HintBranchStopsAtBracket | encoding/sexpr/canonical/canonical.go:137-145 | parseAtom's hint branch, on a canonical hinted atom, stops before `]` and then fails on it |
| ParserProperties.BracketStartsNothing | encoding/sexpr/canonical/canonical.go:163-183 | no simple string starts with `]` |
| ParserProperties.AtomAtBracket | encoding/sexpr/canonical/canonical.go:137-147 | after a hint, the value is read from where the hint stopped |
| ParserProperties.EmptyInputPanics | encoding/sexpr/canonical/canonical.go:101 | empty input indexes `s[0]` and panics |
| ParserProperties.EmptyListKeepsParen | encoding/sexpr/canonical/canonical.go:120-121 | `()` is the empty list, with the `)` still in the rest |
| ParserProperties.UnbalancedAccepted | encoding/sexpr/canonical/canonical.go:121-127 | `((a)` is accepted: the inner `)` closes both lists |
| ParserProperties.InnerListA | encoding/sexpr/canonical/canonical.go:114-132 | `(a)` is the list of the token `a`, with `)` in the rest |
| ParserProperties.TokenA | encoding/sexpr/canonical/canonical.go:176-181 | `a)` is the token `a`, stopped at `)` |

## Left out

- The value and the rest the code returns beside an error are not modelled. An error outcome carries only its `ErrorKind`.
  - The rest is not nil in the default branch of parseSexpr and in the hint branch of parseAtom. Every other error site returns a nil rest.
  - parseAtom returns an empty `Atom{}` beside its errors (canonical.go:140 and 145).
  - parseList returns a nil `List` beside its errors (canonical.go:125 and 131). parseSexpr passes it on at canonical.go:104 as a non-nil `Sexpr` interface value that holds a nil `List`.
- A Go `List` is a `[]Sexpr` and may hold a nil `Sexpr`. The encoders panic on such a child when they call `datum.toCanonical(buf)` or `datum.toAdvanced(buf)` (canonical.go:76 and 90). `Sexprs.Sexpr` has no nil tree, so in the model the encoders always succeed.
- The error message text is not modelled. Each error site is an `ErrorKind` instead.
- Nil and empty slices are not told apart. This matters in two places:
  - a hint is a byte string, and the encoder treats nil and empty alike;
  - parseDecimal's nil rest for all-digit input is the empty sequence, and every caller indexes it with the same panic.
- The input slice is taken to have capacity equal to its length. Go bounds `s[i+1:i+2]` in the `\x` escape by capacity, so a larger capacity could turn that panic into a read.
- Grammar.Prefill: Go's limit on `make([]byte, length)` at canonical.go:244 is not modelled. On a 64-bit platform an explicit length above 2^48 makes that call panic (`makeslice: len out of range`), and a smaller but huge one can exhaust memory. The model prefills `length` zero bytes whatever the length, so such a quoted string gives `Err(LengthMismatch)` when its body decodes to anything (for example `281474976710657"a"`), and the `s[length:]` panic when its body is empty.
- Aliasing between the package-level tables is not modelled; each table is the set of bytes it spells out. The tables come from `append` chains that may share backing arrays.
- Conversions.Base64DecodedLen: the decoded bytes of base64.StdEncoding.Decode are not modelled, because parseBase64 returns a prefix of the encoded text and uses only the decoded length. Its error outcome is modelled for text drawn from the hexadecimal table, which is the only text that reaches it.
- Conversions.Atoi: strconv.Atoi is modelled for a 64-bit `int` only. Values above 2^63-1 are its range error. A 32-bit platform is not modelled.
- ParserProperties.Plain: the round-trip lemmas need every value to be at most 2^63-1 bytes long. No Go slice is longer.
- ParserProperties.UnclosedListFails: it states only that the outcome is not a success. The error a child reports and the panics are left to ParseSexpr itself.
- sexprs_test.go is not part of this model. It tests a different package, whose API (`Pack`, `Parse`, `Equal`, `Read`, …) canonical.go does not have. Several of its expectations contradict this code, for example that `((a)` is an error and that a list parse leaves no rest.
- Equality, cloning, transport (`{…}`) encoding and reading from a buffered stream have no code in canonical.go. They are not modelled.
- The draft puts spaces between list elements in the advanced form. The code writes none, and the model follows the code.
- The encoders append to a `bytes.Buffer` that never fails; the limits on memory it could run into are not modelled.
- A canonical form with a hint does not parse back (ParserProperties.HintedAtomRejected). The model records this as the code's behaviour and gives no corrected parser.
