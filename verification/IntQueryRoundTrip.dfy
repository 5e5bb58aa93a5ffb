/** Output of a stored query followed by input (contrib/intarray/_int_bool.c, bqarr_out and bqarr_in). */
module IntQueryRoundTrip {
  import opened IntQuerySyntax
  import opened IntQueryGrammar
  import opened IntQueryExec
  import opened IntQueryPrint
  import opened Sequences

  lemma SnocEqual<T>(a: seq<T>, x: T, b: seq<T>, y: T)
    requires a + [x] == b + [y]
    ensures a == b && x == y
  {
    assert (a + [x])[..|a|] == a && (b + [y])[..|b|] == b;
    assert (a + [x])[|a|] == x && (b + [y])[|b|] == y;
  }

  /** A postfix form can only be read in one way. */
  lemma {:induction false} NodesEndUnique(pre: seq<Node>, p: Query, pre': seq<Node>, q: Query)
    requires pre + Nodes(p) == pre' + Nodes(q)
    ensures pre == pre' && p == q
    decreases p
  {
    var front, front' := Front(p), Front(q);
    Assoc(pre, front, [Root(p)]);
    Assoc(pre', front', [Root(q)]);
    SnocEqual(pre + front, Root(p), pre' + front', Root(q));
    match p
    case Leaf(_) =>
      Units(pre);
      Units(pre');
    case Not(x) => NodesEndUnique(pre, x, pre', q.q);
    case Bin(_, l, r) =>
      Assoc(pre, Nodes(l), Nodes(r));
      Assoc(pre', Nodes(q.l), Nodes(q.r));
      NodesEndUnique(pre + Nodes(l), r, pre' + Nodes(q.l), q.r);
      NodesEndUnique(pre, l, pre', q.l);
  }

  /** All nodes but the last. */
  function Front(q: Query): (s: seq<Node>)
    ensures Nodes(q) == s + [Root(q)]
  {
    match q
    case Leaf(_) => []
    case Not(p) => Nodes(p)
    case Bin(_, l, r) => Nodes(l) + Nodes(r)
  }

  lemma NodesUnique(p: Query, q: Query)
    requires Nodes(p) == Nodes(q)
    ensures p == q
  {
    NodesEndUnique([], p, [], q);
  }

  /** The text of a query parses to what the text writes. */
  lemma TextParses(q: Query)
    requires Int32Leaves(q)
    ensures Parse(Show(q, true)).Parsed? && Parse(Show(q, true)).out == Nodes(Strip(Printed(q, true)))
    ensures Size(Strip(Printed(q, true))) == Size(q)
  {
    PrintedIsWritten(q);
    PrintedShape(q);
    ParseAccepts(Show(q, true), Printed(q, true));
    StripPostfix(Printed(q, true));
  }

  /** Input of the text of a query stores what the text writes. */
  lemma TextStored(q: Query, r: Input)
    requires Int32Leaves(q) && Size(q) <= QUERYTYPE_MAX_ITEMS && InputMeans(Show(q, true), r)
    ensures r.Stored? && |r.items| == Size(q) && Stores(r.items, 0, Strip(Printed(q, true)))
  {
    TextParses(q);
    var e :| Nodes(Strip(Printed(q, true))) == Nodes(Strip(e)) && Stores(r.items, 0, Strip(e));
    NodesUnique(Strip(Printed(q, true)), Strip(e));
  }

  /** The two queries mean the same on every array. */
  ghost predicate SameMeaning(p: Query, q: Query) { forall holds: int -> bool :: Eval(p, holds) == Eval(q, holds) }

  /**
   Whatever text output gives for a stored query, input stores a query for it again: with as many items, the
   same meaning on every array, and the same text.
   */
  lemma RoundTrip(q: Query, r: Input)
    requires Int32Leaves(q) && Size(q) <= QUERYTYPE_MAX_ITEMS
    requires Output(q).Some? && InputMeans(Output(q).value, r)
    ensures r.Stored? && |r.items| == Size(q)
    ensures exists back :: Stores(r.items, 0, back) && SameMeaning(back, q) && Show(back, true) == Show(q, true)
  {
    TextStored(q, r);
    var back := Strip(Printed(q, true));
    forall holds: int -> bool ensures Eval(back, holds) == Eval(q, holds) { PrintedMeans(q, true, holds); }
    PrintedShows(q, true);
    assert SameMeaning(back, q);
  }

  // A text whose link is cut

  /** A complete tree of alternatives. */
  function Alternatives(n: nat): Query {
    if n == 0 then Leaf(0) else Bin(false, Alternatives(n - 1), Alternatives(n - 1))
  }

  lemma {:induction false} AlternativesPrinted(n: nat, first: bool)
    ensures Strip(Printed(Alternatives(n), first)) == Alternatives(n) && Int32Leaves(Alternatives(n))
  {
    if n > 0 { AlternativesPrinted(n - 1, false); }
  }

  lemma AlternativesSize()
    ensures Size(Alternatives(14)) == 0x7fff
  {
    assert Size(Alternatives(2)) == 7;
    assert Size(Alternatives(4)) == 31;
    assert Size(Alternatives(6)) == 127;
    assert Size(Alternatives(8)) == 511;
    assert Size(Alternatives(10)) == 2047;
    assert Size(Alternatives(12)) == 8191;
  }

  /** `1 & !( ... )` around alternatives. */
  function Negated(n: nat): Query { Bin(true, Leaf(1), Not(Alternatives(n))) }

  lemma NegatedPrinted(n: nat)
    ensures Strip(Printed(Negated(n), true)) == Negated(n) && Int32Leaves(Negated(n))
    ensures Size(Negated(n)) == Size(Alternatives(n)) + 3
  {
    AlternativesPrinted(n, true);
  }

  /** Input of the text with 16384 alternatives always stores a link at the root that leads past the end of the query. */
  lemma LinkCanBeWrong(n: nat, r: Input)
    requires n == 14 && InputMeans(Show(Negated(n), true), r)
    ensures r.Stored? && r.items != [] && r.items[|r.items| - 1].left == 0x7fff && !LinksFit(Negated(n))
  {
    AlternativesSize();
    LinkCut(n, r);
  }

  lemma LinkCut(n: nat, r: Input)
    requires Size(Alternatives(n)) == 0x7fff && InputMeans(Show(Negated(n), true), r)
    ensures r.Stored? && r.items != [] && r.items[|r.items| - 1].left == 0x7fff && !LinksFit(Negated(n))
  {
    NegatedStored(n, r);
    CutLink(r.items, Negated(n));
  }

  lemma NegatedStored(n: nat, r: Input)
    requires Size(Negated(n)) <= QUERYTYPE_MAX_ITEMS && InputMeans(Show(Negated(n), true), r)
    ensures r.Stored? && |r.items| == Size(Negated(n)) && Stores(r.items, 0, Negated(n))
  {
    NegatedPrinted(n);
    TextStored(Negated(n), r);
  }
}
