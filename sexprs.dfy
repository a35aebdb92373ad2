/** The value tree: an atom with a display hint and a value, or a list of values. */
module Sexprs {
  import opened Bytes

  /** A Go `Atom` holds two byte slices; the encoder tests only the hint's length
      (`!= nil && len > 0`), so a nil hint and an empty hint are both `[]` here. */
  datatype Sexpr =
    | Atom(displayHint: seq<byte>, value: seq<byte>)
    | List(items: seq<Sexpr>)

  /** No atom anywhere in the tree carries a non-empty display hint. */
  predicate NoHints(e: Sexpr)
    decreases e
  {
    match e
    case Atom(hint, _) => hint == []
    case List(items) => forall i :: 0 <= i < |items| ==> NoHints(items[i])
  }

  /** The tree with every display hint emptied and everything else kept. */
  function StripHints(e: Sexpr): (r: Sexpr)
    ensures NoHints(r)
    ensures r.Atom? <==> e.Atom?
    ensures r.Atom? ==> r.value == e.value
    ensures r.List? ==> |r.items| == |e.items|
    decreases e
  {
    match e
    case Atom(_, value) => Atom([], value)
    case List(items) => List(seq(|items|, i requires 0 <= i < |items| => StripHints(items[i])))
  }

  /** Stripping hints changes nothing in a tree that has none. */
  lemma {:induction false} StripHintsIdentity(e: Sexpr)
    requires NoHints(e)
    ensures StripHints(e) == e
    decreases e
  {
    match e
    case Atom(_, _) =>
    case List(items) =>
      forall i | 0 <= i < |items| ensures StripHints(items[i]) == items[i] {
        StripHintsIdentity(items[i]);
      }
      assert StripHints(e).items == items;
  }
}
