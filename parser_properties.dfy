/** What parseSexpr and parseList make of whole inputs: the canonical encodings of trees,
    whitespace, unclosed lists and display hints. */
module ParserProperties {
  import opened Bytes
  import opened Conversions
  import opened Sexprs
  import opened Encoder
  import opened Grammar
  import opened ScannerProperties

  /** The trees ParseCanonical describes: no display hints, and every value at most MaxInt
      bytes long, so that strconv.Atoi takes its length. Some other trees parse too: a hinted
      atom after a nested list is never read, because that list's `)` closes its parent. */
  predicate Plain(e: Sexpr)
    decreases e
  {
    match e
    case Atom(hint, value) => hint == [] && |value| <= MaxInt
    case List(items) => forall i :: 0 <= i < |items| ==> Plain(items[i])
  }

  /** The tree the parser returns for the canonical form of `e`. The `)` that closes a nested
      list is left in the rest and then closes its parent as well, so every sibling after a
      nested list is lost. */
  function Reparsed(e: Sexpr): Sexpr
    decreases e, 1
  {
    match e
    case Atom(_, _) => e
    case List(items) => List(ReparsedItems(items))
  }

  function ReparsedItems(xs: seq<Sexpr>): seq<Sexpr>
    decreases xs, 0
  {
    if |xs| == 0 then []
    else if xs[0].Atom? then [xs[0]] + ReparsedItems(xs[1..])
    else [Reparsed(xs[0])]
  }

  /** The rest the parser returns for the canonical form of `e` followed by `t`. */
  function Leftover(e: Sexpr, t: seq<byte>): seq<byte>
    decreases e, 1
  {
    match e
    case Atom(_, _) => t
    case List(items) => LeftoverItems(items, [Ch(')')] + t)
  }

  /** The rest after the children `xs` when `u` follows them. */
  function LeftoverItems(xs: seq<Sexpr>, u: seq<byte>): seq<byte>
    decreases xs, 0
  {
    if |xs| == 0 then u
    else if xs[0].Atom? then LeftoverItems(xs[1..], u)
    else Leftover(xs[0], CanonicalAll(xs[1..]) + u)
  }

  /** No list in the tree has a sibling after a nested list. */
  predicate Flat(e: Sexpr)
    decreases e, 1
  {
    match e
    case Atom(_, _) => true
    case List(items) => FlatItems(items)
  }

  predicate FlatItems(xs: seq<Sexpr>)
    decreases xs, 0
  {
    forall i :: 0 <= i < |xs| ==> Flat(xs[i]) && (xs[i].List? ==> i == |xs| - 1)
  }

  /** A value-only atom: what parseAtom returns around the simple string it reads. */
  function AtomOf(o: Outcome<seq<byte>>): Outcome<Sexpr> {
    match o
    case Ok(v, rest) => Ok(Atom([], v), rest)
    case Err(k) => Err(k)
    case Panic => Panic
  }

  /** One step of parseSexpr at a byte that starts a simple string. */
  lemma SexprAtAtom(s: seq<byte>)
    requires |s| > 0 && In(s[0], StringChar) && s[0] != Ch('(') && s[0] != Ch('[')
    ensures ParseSexpr(s) == AtomOf(ParseSimpleString(s))
  {
  }

  /** One step of parseSexpr at `(`. */
  lemma SexprAtParen(s: seq<byte>)
    requires |s| > 0 && s[0] == Ch('(')
    ensures ParseSexpr(s) == ParseList(s[1..])
  {
  }

  /** One step of parseList's loop at `)`. */
  lemma ItemsAtClose(s: seq<byte>, acc: seq<Sexpr>)
    requires |s| > 0 && s[0] == Ch(')')
    ensures ParseItems(s, acc) == Ok(List(acc), s)
  {
  }

  /** One step of parseList's loop at a child that parses. */
  lemma ItemsAtChild(s: seq<byte>, acc: seq<Sexpr>, child: Sexpr, rest: seq<byte>)
    requires |s| > 0 && s[0] != Ch(')') && !In(s[0], WhitespaceChar)
    requires ParseSexpr(s) == Ok(child, rest)
    ensures ParseItems(s, acc) == ParseItems(rest, acc + [child])
  {
  }

  /** One step of parseList's loop at whitespace. */
  lemma ItemsAtSpace(s: seq<byte>, acc: seq<Sexpr>)
    requires |s| > 0 && In(s[0], WhitespaceChar)
    ensures ParseItems(s, acc) == ParseItems(s[1..], acc)
  {
  }

  /** One step of parseList's loop at a child that fails. */
  lemma ItemsAtFailure(s: seq<byte>, acc: seq<Sexpr>, k: ErrorKind)
    requires |s| > 0 && s[0] != Ch(')') && !In(s[0], WhitespaceChar)
    requires ParseSexpr(s) == Err(k)
    ensures ParseItems(s, acc) == Err(k)
  {
  }

  /** One step of parseSexpr at a byte that starts nothing. */
  lemma SexprAtOther(s: seq<byte>)
    requires |s| > 0 && s[0] != Ch('(') && !In(s[0], StringChar)
    ensures ParseSexpr(s) == Err(UnrecognisedStart)
  {
  }

  /** The bytes an encoding can start with. */
  lemma StartBytes(c: byte)
    ensures In(c, DecimalDigit) ==> In(c, StringChar) && c != Ch('(') && c != Ch('[')
    ensures In(c, DecimalDigit) || c == Ch('(') ==> c != Ch(')') && !In(c, WhitespaceChar)
    ensures c == Ch('[') ==> !In(c, StringChar) && c != Ch(')') && !In(c, WhitespaceChar)
    ensures c == Ch('{') ==> !In(c, StringChar)
    ensures In(c, LowerCase) ==>
      In(c, StringChar) && c != Ch('(') && c != Ch('[') && c != Ch(')') && !In(c, WhitespaceChar)
  {
  }

  lemma ItoaStart(n: nat)
    ensures |Itoa(n)| > 0 && In(Itoa(n)[0], DecimalDigit)
  {
    ItoaDecimal(n);
  }

  /** The first byte and the tail of a concatenation. */
  lemma ConsPieces(w: seq<byte>, s: seq<byte>)
    requires |w| > 0
    ensures (w + s)[0] == w[0] && (w + s)[1..] == w[1..] + s
  {
  }

  /** The canonical form of a hint-free tree starts with a digit or `(`. */
  lemma CanonicalStart(e: Sexpr)
    requires NoHints(e)
    ensures |Canonical(e)| > 0
    ensures e.Atom? ==> In(Canonical(e)[0], DecimalDigit)
    ensures e.List? ==> Canonical(e)[0] == Ch('(')
  {
    if e.Atom? {
      ItoaStart(|e.value|);
      assert Canonical(e) == Itoa(|e.value|) + ([Ch(':')] + e.value);
    }
  }

  /** A hint-free atom's canonical form reads back as the same atom, with nothing consumed
      after its value. */
  lemma AtomRoundTrip(v: seq<byte>, t: seq<byte>)
    requires |v| <= MaxInt
    ensures ParseSexpr(Canonical(Atom([], v)) + t) == Ok(Atom([], v), t)
  {
    var s := Itoa(|v|) + [Ch(':')] + v + t;
    AtomPieces(v, t);
    StartBytes(s[0]);
    SexprAtAtom(s);
    RawStringRoundTrip(v, t);
  }

  lemma AtomPieces(v: seq<byte>, t: seq<byte>)
    ensures Canonical(Atom([], v)) + t == Itoa(|v|) + [Ch(':')] + v + t
    ensures In((Itoa(|v|) + [Ch(':')] + v + t)[0], DecimalDigit)
  {
    CanonicalPlainAtom(v);
    ItoaStart(|v|);
    ItoaLead(v, t);
  }

  lemma ItoaLead(v: seq<byte>, t: seq<byte>)
    ensures (Itoa(|v|) + [Ch(':')] + v + t)[0] == Itoa(|v|)[0]
  {
    ItoaStart(|v|);
  }

  /** ParseBytes of ToCanonical(Atom{Value: v}) gives the atom back, with an empty hint and
      an empty rest. */
  lemma ParseBytesOfAtom(v: seq<byte>)
    requires |v| <= MaxInt
    ensures ParseSexpr(Canonical(Atom([], v))) == Ok(Atom([], v), [])
  {
    AtomRoundTrip(v, []);
    assert Canonical(Atom([], v)) + [] == Canonical(Atom([], v));
  }

  /** The parse of any canonical encoding: the tree Reparsed(e), with rest Leftover(e, t). */
  lemma {:induction false} ParseCanonical(e: Sexpr, t: seq<byte>)
    requires Plain(e)
    ensures ParseSexpr(Canonical(e) + t) == Ok(Reparsed(e), Leftover(e, t))
    decreases e, 1
  {
    match e
    case Atom(_, v) =>
      AtomRoundTrip(v, t);
    case List(items) =>
      var u := [Ch(')')] + t;
      ListPieces(items, t);
      SexprAtParen(Canonical(e) + t);
      ParseCanonicalItems(items, u, []);
      assert [] + ReparsedItems(items) == ReparsedItems(items);
  }

  lemma ListPieces(items: seq<Sexpr>, t: seq<byte>)
    ensures (Canonical(List(items)) + t)[0] == Ch('(')
    ensures (Canonical(List(items)) + t)[1..] == CanonicalAll(items) + ([Ch(')')] + t)
  {
    assert Canonical(List(items)) + t == [Ch('(')] + (CanonicalAll(items) + ([Ch(')')] + t));
  }

  /** The canonical forms of `xs` followed by `u`, split after the first one. */
  lemma ItemsPieces(xs: seq<Sexpr>, u: seq<byte>)
    requires |xs| > 0 && |Canonical(xs[0])| > 0
    ensures CanonicalAll(xs) + u == Canonical(xs[0]) + (CanonicalAll(xs[1..]) + u)
    ensures (CanonicalAll(xs) + u)[0] == Canonical(xs[0])[0]
  {
  }

  /** parseList's loop over the canonical forms of `xs`, followed by `u`, which starts with
      the `)` that ends the list. */
  lemma {:induction false} ParseCanonicalItems(xs: seq<Sexpr>, u: seq<byte>, acc: seq<Sexpr>)
    requires forall i :: 0 <= i < |xs| ==> Plain(xs[i])
    requires |u| > 0 && u[0] == Ch(')')
    ensures ParseItems(CanonicalAll(xs) + u, acc) == Ok(List(acc + ReparsedItems(xs)), LeftoverItems(xs, u))
    decreases xs, 2
  {
    if |xs| == 0 {
      assert CanonicalAll(xs) + u == u;
      assert acc + [] == acc;
      ItemsAtClose(u, acc);
    } else if xs[0].Atom? {
      ParseAtomFirst(xs, u, acc);
    } else {
      ParseListFirst(xs, u, acc);
    }
  }

  lemma {:induction false} ParseAtomFirst(xs: seq<Sexpr>, u: seq<byte>, acc: seq<Sexpr>)
    requires |xs| > 0 && xs[0].Atom? && forall i :: 0 <= i < |xs| ==> Plain(xs[i])
    requires |u| > 0 && u[0] == Ch(')')
    ensures ParseItems(CanonicalAll(xs) + u, acc) == Ok(List(acc + ReparsedItems(xs)), LeftoverItems(xs, u))
    decreases xs, 1
  {
    var x := xs[0];
    ParseFirstChild(xs, u, acc);
    ParseCanonicalItems(xs[1..], u, acc + [x]);
    AtomFirstItems(xs, u, acc);
  }

  lemma AtomFirstItems(xs: seq<Sexpr>, u: seq<byte>, acc: seq<Sexpr>)
    requires |xs| > 0 && xs[0].Atom?
    ensures acc + [xs[0]] + ReparsedItems(xs[1..]) == acc + ReparsedItems(xs)
    ensures LeftoverItems(xs, u) == LeftoverItems(xs[1..], u)
  {
    assert ReparsedItems(xs) == [xs[0]] + ReparsedItems(xs[1..]);
  }

  lemma {:induction false} ParseListFirst(xs: seq<Sexpr>, u: seq<byte>, acc: seq<Sexpr>)
    requires |xs| > 0 && xs[0].List? && forall i :: 0 <= i < |xs| ==> Plain(xs[i])
    ensures ParseItems(CanonicalAll(xs) + u, acc) == Ok(List(acc + ReparsedItems(xs)), LeftoverItems(xs, u))
    decreases xs, 1
  {
    var x := xs[0];
    ParseFirstChild(xs, u, acc);
    ItemsAtClose(Leftover(x, CanonicalAll(xs[1..]) + u), acc + [Reparsed(x)]);
  }

  /** parseList's loop reads the first child's canonical form as Reparsed, and goes on from
      its leftover, which is a `)` when the child is a list. */
  lemma {:induction false} ParseFirstChild(xs: seq<Sexpr>, u: seq<byte>, acc: seq<Sexpr>)
    requires |xs| > 0 && forall i :: 0 <= i < |xs| ==> Plain(xs[i])
    ensures ParseItems(CanonicalAll(xs) + u, acc) ==
      ParseItems(Leftover(xs[0], CanonicalAll(xs[1..]) + u), acc + [Reparsed(xs[0])])
    ensures xs[0].Atom? ==> Reparsed(xs[0]) == xs[0] && Leftover(xs[0], CanonicalAll(xs[1..]) + u) == CanonicalAll(xs[1..]) + u
    ensures xs[0].List? ==>
      |Leftover(xs[0], CanonicalAll(xs[1..]) + u)| > 0 && Leftover(xs[0], CanonicalAll(xs[1..]) + u)[0] == Ch(')')
    decreases xs, 0
  {
    var x := xs[0];
    var after := CanonicalAll(xs[1..]) + u;
    PlainHasNoHints(x);
    CanonicalStart(x);
    ItemsPieces(xs, u);
    StartBytes(Canonical(x)[0]);
    ParseCanonical(x, after);
    ItemsAtChild(CanonicalAll(xs) + u, acc, Reparsed(x), Leftover(x, after));
    if x.List? {
      SexprAtParen(Canonical(x) + after);
    }
  }

  lemma {:induction false} PlainHasNoHints(e: Sexpr)
    requires Plain(e)
    ensures NoHints(e)
    decreases e
  {
    match e
    case Atom(_, _) =>
    case List(items) =>
      forall i | 0 <= i < |items| ensures NoHints(items[i]) {
        PlainHasNoHints(items[i]);
      }
  }

  /** The parser gives a tree back unchanged exactly when no nested list has a sibling after
      it. */
  lemma {:induction false} ReparsedIdentity(e: Sexpr)
    ensures Reparsed(e) == e <==> Flat(e)
    decreases e, 1
  {
    match e
    case Atom(_, _) =>
    case List(items) =>
      ReparsedItemsIdentity(items);
  }

  lemma {:induction false} ReparsedItemsIdentity(xs: seq<Sexpr>)
    ensures ReparsedItems(xs) == xs <==> FlatItems(xs)
    decreases xs, 0
  {
    if |xs| > 0 {
      var x := xs[0];
      ReparsedIdentity(x);
      if x.Atom? {
        ReparsedItemsIdentity(xs[1..]);
        assert xs == [x] + xs[1..];
        if ReparsedItems(xs) == xs {
          assert ReparsedItems(xs[1..]) == xs[1..];
          forall i | 0 <= i < |xs| ensures Flat(xs[i]) && (xs[i].List? ==> i == |xs| - 1) {
            if i > 0 {
              assert xs[i] == xs[1..][i - 1];
            }
          }
        }
        if FlatItems(xs) {
          forall i | 0 <= i < |xs[1..]|
            ensures Flat(xs[1..][i]) && (xs[1..][i].List? ==> i == |xs[1..]| - 1)
          {
            assert xs[1..][i] == xs[i + 1];
          }
        }
      } else {
        if ReparsedItems(xs) == xs {
          assert |xs| == 1;
        }
        if FlatItems(xs) {
          assert |xs| == 1;
          assert xs == [x];
        }
      }
    }
  }

  /** A flat list of hint-free atoms reads back as the same children, with the closing `)`
      left in the rest. */
  lemma FlatListRoundTrip(items: seq<Sexpr>, t: seq<byte>)
    requires forall i :: 0 <= i < |items| ==> items[i].Atom? && Plain(items[i])
    ensures ParseSexpr(Canonical(List(items)) + t) == Ok(List(items), [Ch(')')] + t)
  {
    ParseCanonical(List(items), t);
    assert FlatItems(items);
    ReparsedIdentity(List(items));
    AtomsLeftover(items, [Ch(')')] + t);
    assert Leftover(List(items), t) == [Ch(')')] + t;
  }

  lemma {:induction false} AtomsLeftover(xs: seq<Sexpr>, u: seq<byte>)
    requires forall i :: 0 <= i < |xs| ==> xs[i].Atom?
    ensures LeftoverItems(xs, u) == u
    decreases xs
  {
    if |xs| > 0 {
      AtomsLeftover(xs[1..], u);
    }
  }

  /** A nested list's `)` ends its parent: the siblings after it are not read, and the rest
      starts at that `)`. */
  lemma NestedListClosesParent(items: seq<Sexpr>, more: seq<Sexpr>, t: seq<byte>)
    requires forall i :: 0 <= i < |items| ==> items[i].Atom? && Plain(items[i])
    requires forall i :: 0 <= i < |more| ==> Plain(more[i])
    ensures ParseSexpr(Canonical(List([List(items)] + more)) + t) ==
      Ok(List([List(items)]), [Ch(')')] + CanonicalAll(more) + [Ch(')')] + t)
  {
    var xs := [List(items)] + more;
    assert xs[0] == List(items) && xs[1..] == more;
    assert forall i :: 0 <= i < |xs| ==> Plain(xs[i]);
    ParseCanonical(List(xs), t);
    assert FlatItems(items);
    ReparsedIdentity(List(items));
    assert ReparsedItems(xs) == [List(items)];
    NestedLeftover(items, more, t);
  }

  lemma NestedLeftover(items: seq<Sexpr>, more: seq<Sexpr>, t: seq<byte>)
    requires forall i :: 0 <= i < |items| ==> items[i].Atom?
    ensures Leftover(List([List(items)] + more), t) == [Ch(')')] + CanonicalAll(more) + [Ch(')')] + t
  {
    var xs := [List(items)] + more;
    assert xs[0] == List(items) && xs[1..] == more;
    var u := CanonicalAll(more) + ([Ch(')')] + t);
    AtomsLeftover(items, [Ch(')')] + u);
    assert LeftoverItems(xs, [Ch(')')] + t) == Leftover(List(items), u);
  }

  /** Space, tab, CR and LF between children are skipped. */
  lemma {:induction false} WhitespaceSkipped(w: seq<byte>, s: seq<byte>, acc: seq<Sexpr>)
    requires AllIn(w, WhitespaceChar)
    ensures ParseItems(w + s, acc) == ParseItems(s, acc)
    decreases |w|
  {
    if |w| > 0 {
      ConsPieces(w, s);
      ItemsAtSpace(w + s, acc);
      WhitespaceSkipped(w[1..], s, acc);
    } else {
      assert w + s == s;
    }
  }

  /** Without a `)` anywhere in the input the list cannot succeed: it is an error, or a panic
      from a child. Whitespace alone runs into the end of the input. */
  lemma UnclosedListFails(s: seq<byte>)
    requires forall j :: 0 <= j < |s| ==> s[j] != Ch(')')
    ensures !ParseList(s).Ok?
    ensures AllIn(s, WhitespaceChar) ==> ParseList(s) == Err(UnterminatedList)
  {
    if AllIn(s, WhitespaceChar) {
      WhitespaceSkipped(s, [], []);
      assert s + [] == s;
    }
  }

  /** Every tree parseSexpr returns is free of display hints: the hint branch of parseAtom is
      never reached. */
  lemma {:induction false} ParsedHasNoHints(s: seq<byte>)
    ensures ParseSexpr(s).Ok? ==> NoHints(ParseSexpr(s).value)
    decreases |s|, 0
  {
    if |s| > 0 && s[0] == Ch('(') {
      SexprAtParen(s);
      ParsedItemsHaveNoHints(s[1..], []);
    } else if |s| > 0 && In(s[0], StringChar) {
      StartBytes(Ch('['));
      SexprAtAtom(s);
    }
  }

  lemma {:induction false} ParsedItemsHaveNoHints(s: seq<byte>, acc: seq<Sexpr>)
    requires forall i :: 0 <= i < |acc| ==> NoHints(acc[i])
    ensures ParseItems(s, acc).Ok? ==> NoHints(ParseItems(s, acc).value)
    decreases |s|, 1
  {
    if |s| == 0 || s[0] == Ch(')') {
    } else if In(s[0], WhitespaceChar) {
      ItemsAtSpace(s, acc);
      ParsedItemsHaveNoHints(s[1..], acc);
    } else {
      var child := ParseSexpr(s);
      if child.Ok? {
        ParsedHasNoHints(s);
        ItemsAtChild(s, acc, child.value, child.rest);
        var acc' := acc + [child.value];
        assert forall i :: 0 <= i < |acc'| ==> NoHints(acc'[i]);
        ParsedItemsHaveNoHints(child.rest, acc');
      }
    }
  }

  /** A leading display hint, or a transport `{`, is not a start parseSexpr knows. */
  lemma LeadingHintRejected(s: seq<byte>)
    requires |s| > 0 && (s[0] == Ch('[') || s[0] == Ch('{'))
    ensures ParseSexpr(s) == Err(UnrecognisedStart)
  {
    StartBytes(s[0]);
    SexprAtOther(s);
  }

  /** So the canonical form of a hinted atom does not read back, alone or inside a list. */
  lemma HintedAtomRejected(h: seq<byte>, v: seq<byte>, t: seq<byte>, acc: seq<Sexpr>)
    requires |h| > 0
    ensures ParseSexpr(Canonical(Atom(h, v)) + t) == Err(UnrecognisedStart)
    ensures ParseItems(Canonical(Atom(h, v)) + t, acc) == Err(UnrecognisedStart)
  {
    var s := Canonical(Atom(h, v)) + t;
    HintPieces(h, v, t);
    StartBytes(s[0]);
    SexprAtOther(s);
    ItemsAtFailure(s, acc, UnrecognisedStart);
  }

  lemma HintPieces(h: seq<byte>, v: seq<byte>, t: seq<byte>)
    requires |h| > 0
    ensures |Canonical(Atom(h, v)) + t| > 0 && (Canonical(Atom(h, v)) + t)[0] == Ch('[')
  {
    CanonicalHintMarker(h, v);
  }

  /** The hint branch of parseAtom, called directly on a canonical hinted atom, reads the
      hint and then starts the value at the `]`, which no simple string begins with. */
  lemma HintBranchStopsAtBracket(h: seq<byte>, v: seq<byte>, t: seq<byte>)
    requires 0 < |h| <= MaxInt
    ensures ParseAtom(Canonical(Atom(h, v)) + t) == Err(UnknownChar)
  {
    var after := [Ch(']')] + Itoa(|v|) + [Ch(':')] + v + t;
    var s := Canonical(Atom(h, v)) + t;
    HintedPieces(h, v, t);
    RawStringRoundTrip(h, after);
    BracketStartsNothing(after);
    AtomAtBracket(s);
  }

  lemma HintedPieces(h: seq<byte>, v: seq<byte>, t: seq<byte>)
    requires |h| > 0
    ensures |Canonical(Atom(h, v)) + t| > 0 && (Canonical(Atom(h, v)) + t)[0] == Ch('[')
    ensures (Canonical(Atom(h, v)) + t)[1..] ==
      Itoa(|h|) + [Ch(':')] + h + ([Ch(']')] + Itoa(|v|) + [Ch(':')] + v + t)
  {
    var after := [Ch(']')] + Itoa(|v|) + [Ch(':')] + v + t;
    assert Canonical(Atom(h, v)) + t == [Ch('[')] + (Itoa(|h|) + [Ch(':')] + h + after);
  }

  /** No simple string starts with `]`. */
  lemma BracketStartsNothing(s: seq<byte>)
    requires |s| > 0 && s[0] == Ch(']')
    ensures ParseSimpleString(s) == Err(UnknownChar)
  {
  }

  /** parseAtom's hint branch: the value is read from where the hint stopped. */
  lemma AtomAtBracket(s: seq<byte>)
    requires |s| > 0 && s[0] == Ch('[') && ParseSimpleString(s[1..]).Ok?
    ensures ParseAtom(s) ==
      match ParseSimpleString(ParseSimpleString(s[1..]).rest)
      case Ok(value, rest) => Ok(Atom(ParseSimpleString(s[1..]).value, value), rest)
      case Err(k) => Err(k)
      case Panic => Panic
  {
  }

  /** Worked examples. */
  lemma EmptyInputPanics()
    ensures ParseSexpr([]) == Panic
  {
  }

  lemma EmptyListKeepsParen()
    ensures ParseSexpr([Ch('('), Ch(')')]) == Ok(List([]), [Ch(')')])
  {
    var s := [Ch('('), Ch(')')];
    SexprAtParen(s);
    assert s[1..] == [Ch(')')];
    ItemsAtClose(s[1..], []);
  }

  /** `((a)` is accepted: the inner `)` closes both lists. */
  lemma UnbalancedAccepted()
    ensures ParseSexpr([Ch('('), Ch('('), Ch('a'), Ch(')')]) ==
      Ok(List([List([Atom([], [Ch('a')])])]), [Ch(')')])
  {
    var s := [Ch('('), Ch('('), Ch('a'), Ch(')')];
    var inner := List([Atom([], [Ch('a')])]);
    InnerListA();
    StartBytes(Ch('('));
    assert s[1..] == [Ch('('), Ch('a'), Ch(')')];
    SexprAtParen(s);
    ItemsAtChild(s[1..], [], inner, [Ch(')')]);
    assert [] + [inner] == [inner];
    ItemsAtClose([Ch(')')], [inner]);
  }

  /** `(a)` followed by nothing: the list of one token. */
  lemma InnerListA()
    ensures ParseSexpr([Ch('('), Ch('a'), Ch(')')]) == Ok(List([Atom([], [Ch('a')])]), [Ch(')')])
  {
    var s := [Ch('('), Ch('a'), Ch(')')];
    var a := [Ch('a'), Ch(')')];
    var atom := Atom([], [Ch('a')]);
    TokenA();
    StartBytes(Ch('a'));
    SexprAtAtom(a);
    assert s[1..] == a;
    SexprAtParen(s);
    ItemsAtChild(a, [], atom, [Ch(')')]);
    assert [] + [atom] == [atom];
    ItemsAtClose([Ch(')')], [atom]);
  }

  lemma TokenA()
    ensures ParseSimpleString([Ch('a'), Ch(')')]) == Ok([Ch('a')], [Ch(')')])
  {
    var a := [Ch('a'), Ch(')')];
    SpanOfRun([Ch('a')], [Ch(')')], TokenChar);
    assert [Ch('a')] + [Ch(')')] == a;
    assert a[..1] == [Ch('a')] && a[1..] == [Ch(')')];
  }
}
