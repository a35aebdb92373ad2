/** The two encoders: `ToCanonical` and `ToAdvanced` of `Atom` and `List`
    (encoding/sexpr/canonical/canonical.go:40-93). Each Go method appends to a shared
    `bytes.Buffer`; here the buffer is a class whose one field is the bytes written so far,
    and the functions Canonical and Advanced say what a whole tree appends. */
module Encoder {
  import opened Bytes
  import opened Conversions
  import opened Sexprs

  /** The canonical bytes of an atom: `[` len `:` hint `]` when the hint is non-empty,
      then len `:` value. */
  function CanonicalAtom(hint: seq<byte>, value: seq<byte>): (r: seq<byte>)
    ensures |r| >= |value| + 2
    ensures r[0] == Ch('[') <==> |hint| > 0
    ensures r[0] == Ch('[') || IsDigit(r[0])
  {
    (if |hint| > 0 then [Ch('[')] + Itoa(|hint|) + [Ch(':')] + hint + [Ch(']')] else [])
    + Itoa(|value|) + [Ch(':')] + value
  }

  function Canonical(e: Sexpr): (r: seq<byte>)
    ensures |r| >= 2
    ensures e.List? <==> r[0] == Ch('(')
    ensures e.List? ==> r[|r| - 1] == Ch(')')
    decreases e
  {
    match e
    case Atom(hint, value) => CanonicalAtom(hint, value)
    case List(items) => [Ch('(')] + CanonicalAll(items) + [Ch(')')]
  }

  /** The children's canonical encodings, concatenated in order with no separator. */
  function CanonicalAll(xs: seq<Sexpr>): (r: seq<byte>)
    ensures |r| >= 2 * |xs|
    decreases xs
  {
    if |xs| == 0 then [] else Canonical(xs[0]) + CanonicalAll(xs[1..])
  }

  /** The "advanced" bytes as the code writes them: an atom is len `:` value with its hint
      dropped, and a list puts no separator between its children. */
  function Advanced(e: Sexpr): (r: seq<byte>)
    ensures |r| >= 2
    ensures e.List? <==> r[0] == Ch('(')
    ensures e.Atom? ==> IsDigit(r[0]) && |r| >= |e.value| + 2
    ensures e.List? ==> r[|r| - 1] == Ch(')')
    decreases e
  {
    match e
    case Atom(_, value) => Itoa(|value|) + [Ch(':')] + value
    case List(items) => [Ch('(')] + AdvancedAll(items) + [Ch(')')]
  }

  function AdvancedAll(xs: seq<Sexpr>): (r: seq<byte>)
    ensures |r| >= 2 * |xs|
    decreases xs
  {
    if |xs| == 0 then [] else Advanced(xs[0]) + AdvancedAll(xs[1..])
  }

  lemma {:induction false} CanonicalAllAppend(xs: seq<Sexpr>, x: Sexpr)
    ensures CanonicalAll(xs + [x]) == CanonicalAll(xs) + Canonical(x)
    decreases |xs|
  {
    if |xs| == 0 {
      assert CanonicalAll([x]) == Canonical(x) + CanonicalAll([]);
    } else {
      assert (xs + [x])[1..] == xs[1..] + [x];
      CanonicalAllAppend(xs[1..], x);
    }
  }

  lemma {:induction false} AdvancedAllAppend(xs: seq<Sexpr>, x: Sexpr)
    ensures AdvancedAll(xs + [x]) == AdvancedAll(xs) + Advanced(x)
    decreases |xs|
  {
    if |xs| == 0 {
      assert AdvancedAll([x]) == Advanced(x) + AdvancedAll([]);
    } else {
      assert (xs + [x])[1..] == xs[1..] + [x];
      AdvancedAllAppend(xs[1..], x);
    }
  }

  /** The canonical atom starts with `[` exactly when its hint is non-empty: a nil and an
      empty hint add nothing. */
  lemma CanonicalHintMarker(hint: seq<byte>, value: seq<byte>)
    ensures Canonical(Atom(hint, value))[0] == Ch('[') <==> |hint| > 0
    ensures |hint| == 0 ==> Canonical(Atom(hint, value)) == Canonical(Atom([], value))
  {
    ItoaDecimal(|value|);
  }

  /** Without a hint an atom is written as len `:` value and nothing else. */
  lemma CanonicalPlainAtom(v: seq<byte>)
    ensures Canonical(Atom([], v)) == Itoa(|v|) + [Ch(':')] + v
  {
    assert Canonical(Atom([], v)) == CanonicalAtom([], v);
    assert CanonicalAtom([], v) == [] + Itoa(|v|) + [Ch(':')] + v;
    assert [] + Itoa(|v|) == Itoa(|v|);
  }

  /** The advanced form of a tree is the canonical form of the same tree with its hints
      removed. */
  lemma {:induction false} AdvancedIsCanonicalOfStripped(e: Sexpr)
    ensures Advanced(e) == Canonical(StripHints(e))
    decreases e
  {
    match e
    case Atom(_, _) =>
    case List(items) =>
      AdvancedAllIsCanonicalAllOfStripped(items);
  }

  lemma {:induction false} AdvancedAllIsCanonicalAllOfStripped(xs: seq<Sexpr>)
    ensures AdvancedAll(xs) == CanonicalAll(seq(|xs|, i requires 0 <= i < |xs| => StripHints(xs[i])))
    decreases xs
  {
    var stripped := seq(|xs|, i requires 0 <= i < |xs| => StripHints(xs[i]));
    if |xs| > 0 {
      AdvancedIsCanonicalOfStripped(xs[0]);
      AdvancedAllIsCanonicalAllOfStripped(xs[1..]);
      assert stripped[1..] == seq(|xs| - 1, i requires 0 <= i < |xs| - 1 => StripHints(xs[1..][i]));
    }
  }

  /** For a tree without display hints the two encoders write the same bytes. */
  lemma AdvancedEqualsCanonical(e: Sexpr)
    requires NoHints(e)
    ensures Advanced(e) == Canonical(e)
  {
    AdvancedIsCanonicalOfStripped(e);
    StripHintsIdentity(e);
  }

  /** bytes.Buffer: the bytes written to it so far. */
  class Buffer {
    var data: seq<byte>

    /** bytes.NewBuffer(nil) */
    constructor ()
      ensures data == []
    {
      data := [];
    }

    /** Write and WriteString: append, and never fail. */
    method Write(p: seq<byte>)
      modifies this
      ensures data == old(data) + p
    {
      data := data + p;
    }
  }

  /** toCanonical, dispatched on the variant as Go dispatches on the receiver's type:
      appends the canonical form of `e` to `buf`. */
  method WriteCanonical(e: Sexpr, buf: Buffer)
    modifies buf
    ensures buf.data == old(buf.data) + Canonical(e)
    decreases e
  {
    match e
    case Atom(hint, value) => WriteCanonicalAtom(hint, value, buf);
    case List(items) => WriteCanonicalList(items, buf);
  }

  /** Atom.toCanonical */
  method WriteCanonicalAtom(hint: seq<byte>, value: seq<byte>, buf: Buffer)
    modifies buf
    ensures buf.data == old(buf.data) + CanonicalAtom(hint, value)
  {
    ghost var start := buf.data;
    ghost var marker: seq<byte> := [];
    if |hint| > 0 {
      buf.Write([Ch('[')] + Itoa(|hint|) + [Ch(':')]);
      buf.Write(hint);
      buf.Write([Ch(']')]);
      marker := [Ch('[')] + Itoa(|hint|) + [Ch(':')] + hint + [Ch(']')];
    }
    assert buf.data == start + marker;
    buf.Write(Itoa(|value|) + [Ch(':')]);
    buf.Write(value);
    assert buf.data == start + (marker + (Itoa(|value|) + [Ch(':')] + value));
  }

  /** List.toCanonical: `(`, each child in order, `)`. */
  method WriteCanonicalList(items: seq<Sexpr>, buf: Buffer)
    modifies buf
    ensures buf.data == old(buf.data) + [Ch('(')] + CanonicalAll(items) + [Ch(')')]
    decreases items
  {
    buf.Write([Ch('(')]);
    ghost var start := buf.data;
    for k := 0 to |items|
      invariant buf.data == start + CanonicalAll(items[..k])
    {
      ghost var before := buf.data;
      WriteCanonical(items[k], buf);
      assert buf.data == before + Canonical(items[k]);
      CanonicalAllAppend(items[..k], items[k]);
      assert items[..k + 1] == items[..k] + [items[k]];
    }
    assert items[..|items|] == items;
    buf.Write([Ch(')')]);
  }

  /** toAdvanced, dispatched on the variant: appends the advanced form of `e` to `buf`. */
  method WriteAdvanced(e: Sexpr, buf: Buffer)
    modifies buf
    ensures buf.data == old(buf.data) + Advanced(e)
    decreases e
  {
    match e
    case Atom(_, value) => WriteAdvancedAtom(value, buf);
    case List(items) => WriteAdvancedList(items, buf);
  }

  /** Atom.toAdvanced: the hint is not written. */
  method WriteAdvancedAtom(value: seq<byte>, buf: Buffer)
    modifies buf
    ensures buf.data == old(buf.data) + Itoa(|value|) + [Ch(':')] + value
  {
    buf.Write(Itoa(|value|) + [Ch(':')]);
    buf.Write(value);
  }

  /** List.toAdvanced: `(`, each child in order with no separator, `)`. */
  method WriteAdvancedList(items: seq<Sexpr>, buf: Buffer)
    modifies buf
    ensures buf.data == old(buf.data) + [Ch('(')] + AdvancedAll(items) + [Ch(')')]
    decreases items
  {
    buf.Write([Ch('(')]);
    ghost var start := buf.data;
    for k := 0 to |items|
      invariant buf.data == start + AdvancedAll(items[..k])
    {
      ghost var before := buf.data;
      WriteAdvanced(items[k], buf);
      assert buf.data == before + Advanced(items[k]);
      AdvancedAllAppend(items[..k], items[k]);
      assert items[..k + 1] == items[..k] + [items[k]];
    }
    assert items[..|items|] == items;
    buf.Write([Ch(')')]);
  }

  /** ToCanonical: a fresh buffer, filled by toCanonical. */
  method ToCanonical(e: Sexpr) returns (b: seq<byte>)
    ensures b == Canonical(e)
  {
    var buf := new Buffer();
    WriteCanonical(e, buf);
    b := buf.data;
  }

  /** ToAdvanced: a fresh buffer, filled by toAdvanced. */
  method ToAdvanced(e: Sexpr) returns (b: seq<byte>)
    ensures b == Advanced(e)
  {
    var buf := new Buffer();
    WriteAdvanced(e, buf);
    b := buf.data;
  }

  /** Worked examples of the canonical form. */
  lemma CanonicalEmptyList()
    ensures Canonical(List([])) == Ascii("()")
  {
  }

  lemma CanonicalToken()
    ensures Canonical(Atom([], Ascii("testing"))) == Ascii("7:testing")
  {
    var v := Ascii("testing");
    assert Itoa(|v|) == [Ch('7')];
    assert Canonical(Atom([], v)) == [Ch('7')] + [Ch(':')] + v;
  }

  /** A list of one hinted atom: `(`, the bracketed hint, the value, `)`. */
  lemma CanonicalHintedSingleton(h: seq<byte>, v: seq<byte>)
    requires |h| > 0
    ensures Canonical(List([Atom(h, v)])) ==
      [Ch('('), Ch('[')] + Itoa(|h|) + [Ch(':')] + h + [Ch(']')] + (Itoa(|v|) + [Ch(':')] + v) + [Ch(')')]
  {
    CanonicalSingleton(Atom(h, v));
    HintedAtomPieces(h, v);
    BracketRegroup(Itoa(|h|), h, Itoa(|v|) + [Ch(':')] + v);
  }

  lemma BracketRegroup(n: seq<byte>, h: seq<byte>, b: seq<byte>)
    ensures [Ch('(')] + (([Ch('[')] + n + [Ch(':')] + h + [Ch(']')]) + b) + [Ch(')')] ==
      [Ch('('), Ch('[')] + n + [Ch(':')] + h + [Ch(']')] + b + [Ch(')')]
  {
    assert [Ch('(')] + [Ch('[')] == [Ch('('), Ch('[')];
  }

  lemma CanonicalSingleton(e: Sexpr)
    ensures Canonical(List([e])) == [Ch('(')] + Canonical(e) + [Ch(')')]
  {
    assert [e][1..] == [];
    assert CanonicalAll([e]) == Canonical(e) + [];
  }

  lemma HintedAtomPieces(h: seq<byte>, v: seq<byte>)
    requires |h| > 0
    ensures Canonical(Atom(h, v)) ==
      ([Ch('[')] + Itoa(|h|) + [Ch(':')] + h + [Ch(']')]) + (Itoa(|v|) + [Ch(':')] + v)
  {
    CanonicalOfAtom(h, v);
    HintedCanonicalAtom(h, v);
  }

  lemma CanonicalOfAtom(h: seq<byte>, v: seq<byte>)
    ensures Canonical(Atom(h, v)) == CanonicalAtom(h, v)
  {
  }

  lemma HintedCanonicalAtom(h: seq<byte>, v: seq<byte>)
    requires |h| > 0
    ensures CanonicalAtom(h, v) ==
      ([Ch('[')] + Itoa(|h|) + [Ch(':')] + h + [Ch(']')]) + (Itoa(|v|) + [Ch(':')] + v)
  {
  }

  /** `([4:text]4:test)` */
  lemma CanonicalHinted()
    ensures Canonical(List([Atom(Ascii("text"), Ascii("test"))])) ==
      [Ch('('), Ch('[')] + [Ch('4')] + [Ch(':')] + Ascii("text") + [Ch(']')] + ([Ch('4')] + [Ch(':')] + Ascii("test")) + [Ch(')')]
  {
    CanonicalHintedSingleton(Ascii("text"), Ascii("test"));
    assert Itoa(4) == [Ch('4')];
  }
}
