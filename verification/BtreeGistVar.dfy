/**
 btree_gist's variable-length keys (contrib/btree_gist/btree_utils_var.c) for byte strings: node keys
 are cut off two bytes behind their common prefix, and searches must still reach every row.
 */
module BtreeGistVar {

  import opened Lexicographic

  // Keys

  /** A row's key has equal bounds. */
  datatype Key = Key(lower: Bytes, upper: Bytes)

  ghost predicate Ordered(k: Key) { Le(k.lower, k.upper) }

  ghost function Cp(k: Key): nat { Common(k.lower, k.upper) }

  function Cut(a: Bytes, n: nat): Bytes { if |a| <= n then a else a[..n] }

  /** gbt_var_node_truncate; the source's argument is one less than `n`. */
  function Truncate(k: Key, n: nat): Key { Key(Cut(k.lower, n), Cut(k.upper, n)) }

  /** gbt_var_bin_union on bounds. */
  ghost function Join(a: Key, b: Key): Key {
    Key(if Le(a.lower, b.lower) then a.lower else b.lower, if Le(b.upper, a.upper) then a.upper else b.upper)
  }

  ghost function JoinAll(keys: seq<Key>): Key
    requires keys != []
  {
    if |keys| == 1 then keys[0] else Join(JoinAll(keys[..|keys| - 1]), keys[|keys| - 1])
  }

  ghost function UnionOf(keys: seq<Key>): Key
    requires keys != []
  {
    Truncate(JoinAll(keys), Cp(JoinAll(keys)) + 2)
  }

  ghost predicate Shares(a: Bytes, b: Bytes, n: nat) {
    n <= |a| && n <= |b| && a[..n] == b[..n]
  }

  /** What a key may have below it: `x` is in the range, or beyond it but alike for two bytes past the common prefix. */
  ghost predicate Under(k: Key, x: Bytes) {
    Le(k.lower, x) && (Le(x, k.upper) || Shares(k.upper, x, Cp(k) + 2))
  }

  ghost predicate Wider(k: Key, w: Key) { Le(w.lower, k.lower) && Le(k.upper, w.upper) }

  lemma WiderCp(k: Key, w: Key)
    requires Ordered(k) && Wider(k, w)
    ensures Cp(w) <= Cp(k) && Ordered(w)
  {
    LeTransitive(w.lower, k.lower, k.upper);
    LeTransitive(w.lower, k.upper, w.upper);
    LeTransitive(k.lower, k.upper, w.upper);
    var n := Cp(w);
    Between(w.lower, k.lower, w.upper, n);
    Between(w.lower, k.upper, w.upper, n);
    CommonIs(k.lower, k.upper, n);
  }

  lemma WiderUnder(k: Key, w: Key, x: Bytes)
    requires Ordered(k) && Wider(k, w) && Under(k, x)
    ensures Under(w, x)
  {
    WiderCp(k, w);
    LeTransitive(w.lower, k.lower, x);
    if Le(x, k.upper) {
      LeTransitive(x, k.upper, w.upper);
    } else if !Le(x, w.upper) {
      LeTotal(x, w.upper);
      var n := Cp(w) + 2;
      assert k.upper[..n] == k.upper[..Cp(k) + 2][..n] == x[..Cp(k) + 2][..n] == x[..n];
      Between(k.upper, w.upper, x, n);
    }
  }

  lemma {:induction false} JoinAllWider(keys: seq<Key>, i: nat)
    requires i < |keys|
    ensures Wider(keys[i], JoinAll(keys))
    decreases |keys|
  {
    var k := keys[i];
    LeTotal(k.lower, k.lower);
    LeTotal(k.upper, k.upper);
    if |keys| > 1 {
      var rest, last := JoinAll(keys[..|keys| - 1]), keys[|keys| - 1];
      LeTotal(rest.lower, last.lower);
      LeTotal(rest.upper, last.upper);
      if i < |keys| - 1 {
        JoinAllWider(keys[..|keys| - 1], i);
        var w := JoinAll(keys);
        LeTransitive(w.lower, rest.lower, k.lower);
        LeTransitive(k.upper, rest.upper, w.upper);
      }
    }
  }

  // Cutting off

  lemma CutPrefix(a: Bytes, n: nat)
    ensures Prefix(Cut(a, n), a) && Le(Cut(a, n), a)
  {
    PrefixLe(Cut(a, n), a);
  }

  /** Cutting at least two bytes behind the common prefix changes neither it nor the order. */
  lemma TruncateCp(k: Key, n: nat)
    requires Ordered(k) && n >= Cp(k) + 2
    ensures Cp(Truncate(k, n)) == Cp(k) && Ordered(Truncate(k, n))
    ensures Truncate(k, n).lower == Truncate(k, n).upper <==> k.lower == k.upper
  {
    var t, c := Truncate(k, n), Cp(k);
    assert t.lower[..c] == k.lower[..c] && t.upper[..c] == k.upper[..c];
    CommonIs(t.lower, t.upper, c);
  }

  /** A row below stays at most the cut upper bound, or extends it. */
  lemma TruncateUnder(k: Key, n: nat, x: Bytes)
    requires Ordered(k) && n >= Cp(k) + 2 && Under(k, x) && (Le(x, k.upper) || n == Cp(k) + 2)
    ensures Le(Cut(k.lower, n), x) && (Le(x, Cut(k.upper, n)) || (Prefix(Cut(k.upper, n), x) && n <= |k.upper|))
  {
    CutPrefix(k.lower, n);
    LeTransitive(Cut(k.lower, n), k.lower, x);
    if Le(x, k.upper) { CutAbove(k.upper, n, x); }
  }

  /** What is at most a string is at most the string cut, or extends it. */
  lemma CutAbove(a: Bytes, n: nat, x: Bytes)
    requires Le(x, a)
    ensures Le(x, Cut(a, n)) || (Prefix(Cut(a, n), x) && n <= |a|)
  {
    var u := Cut(a, n);
    if !Le(x, u) {
      CutPrefix(a, n);
      LeTotal(x, u);
      assert u[..|u|] == u;
      Between(u, x, a, |u|);
    }
  }

  lemma UnionUnder(keys: seq<Key>, i: nat, x: Bytes)
    requires i < |keys| && Ordered(keys[i]) && Under(keys[i], x)
    ensures Ordered(UnionOf(keys)) && Under(UnionOf(keys), x)
  {
    JoinAllWider(keys, i);
    WiderUnion(keys[i], JoinAll(keys), x);
  }

  lemma WiderUnion(k: Key, w: Key, x: Bytes)
    requires Ordered(k) && Under(k, x) && Wider(k, w)
    ensures Ordered(Truncate(w, Cp(w) + 2)) && Under(Truncate(w, Cp(w) + 2), x)
  {
    WiderCp(k, w);
    WiderUnder(k, w, x);
    TruncateCp(w, Cp(w) + 2);
    TruncateUnder(w, Cp(w) + 2, x);
  }

  /** gbt_var_union. */
  method Union(entries: seq<Key>) returns (out: Key)
    requires entries != []
    ensures out == UnionOf(entries)
  {
    out := entries[0];
    assert entries[..1] == [entries[0]];
    for i := 1 to |entries|
      invariant out == JoinAll(entries[..i])
    {
      assert entries[..i + 1][..i] == entries[..i];
      out := BinUnion(out, entries[i]);
    }
    assert entries[..|entries|] == entries;
    var plen := CommonLength(out.lower, out.upper);
    out := Truncate(out, plen + 2);
  }

  /** gbt_var_bin_union. */
  method BinUnion(u: Key, e: Key) returns (nr: Key)
    ensures nr == Join(u, e)
  {
    nr := u;
    var c := Compare(u.lower, e.lower);
    if c > 0 {
      nr := nr.(lower := e.lower);
    }
    c := Compare(u.upper, e.upper);
    if c < 0 {
      nr := nr.(upper := e.upper);
    }
    LeTotal(u.upper, e.upper);
    if Le(u.upper, e.upper) && Le(e.upper, u.upper) { LeAntisymmetric(u.upper, e.upper); }
  }

  // Searching

  datatype Strategy = Less | LessEqual | Equal | GreaterEqual | Greater | NotEqual

  ghost predicate Matches(s: Strategy, x: Bytes, q: Bytes) {
    match s
    case Less => Lt(x, q)
    case LessEqual => Le(x, q)
    case Equal => x == q
    case GreaterEqual => Le(q, x)
    case Greater => Lt(q, x)
    case NotEqual => x != q
  }

  ghost predicate PfMatch(k: Key, q: Bytes) { Prefix(k.lower, q) || Prefix(k.upper, q) }

  /** What gbt_var_consistent answers. */
  ghost predicate Test(s: Strategy, k: Key, q: Bytes, leaf: bool) {
    match s
    case Less => if leaf then Lt(k.lower, q) else Le(k.lower, q) || PfMatch(k, q)
    case LessEqual => if leaf then Le(k.lower, q) else Le(k.lower, q) || PfMatch(k, q)
    case Equal => if leaf then q == k.lower else (Le(k.lower, q) && Le(q, k.upper)) || PfMatch(k, q)
    case GreaterEqual => if leaf then Le(q, k.upper) else Le(q, k.upper) || PfMatch(k, q)
    case Greater => if leaf then Lt(q, k.upper) else Le(q, k.upper) || PfMatch(k, q)
    case NotEqual => !(q == k.lower && q == k.upper)
  }

  method Consistent(s: Strategy, k: Key, q: Bytes, leaf: bool) returns (retval: bool)
    ensures retval == Test(s, k, q, leaf)
  {
    var cl := Compare(q, k.lower);
    var cu := Compare(q, k.upper);
    var pf := (|k.lower| <= |q| && q[..|k.lower|] == k.lower) || (|k.upper| <= |q| && q[..|k.upper|] == k.upper);
    match s
    case Less =>
      retval := if leaf then cl > 0 else cl >= 0 || pf;
      LeTotal(q, k.lower);
      if Le(q, k.lower) && Le(k.lower, q) { LeAntisymmetric(q, k.lower); }
    case LessEqual => retval := if leaf then cl >= 0 else cl >= 0 || pf;
    case Equal => retval := if leaf then q == k.lower else (cl >= 0 && cu <= 0) || pf;
    case GreaterEqual => retval := if leaf then cu <= 0 else cu <= 0 || pf;
    case Greater =>
      retval := if leaf then cu < 0 else cu <= 0 || pf;
      LeTotal(q, k.upper);
      if Le(q, k.upper) && Le(k.upper, q) { LeAntisymmetric(q, k.upper); }
    case NotEqual => retval := !(q == k.lower && q == k.upper);
  }

  /** Every search a row matches gets past the key. */
  ghost predicate Passes(k: Key, x: Bytes) {
    forall s, q :: Matches(s, x, q) ==> Test(s, k, q, false)
  }

  /** A key that equality on `x` gets past is one that all searches for `x` get past. */
  lemma EqualityDecides(k: Key, x: Bytes, s: Strategy, q: Bytes)
    requires Ordered(k) && Le(k.lower, x) && Test(Equal, k, x, false) && (k.lower == k.upper ==> x == k.lower)
    requires Matches(s, x, q)
    ensures Test(s, k, q, false)
  {
    match s
    case Less => LeTransitive(k.lower, x, q);
    case LessEqual => LeTransitive(k.lower, x, q);
    case GreaterEqual => ExtendsBelow(k, x, q);
    case Greater => ExtendsBelow(k, x, q);
    case _ =>
  }

  lemma ExtendsBelow(k: Key, x: Bytes, q: Bytes)
    requires Ordered(k) && Le(k.lower, x) && Test(Equal, k, x, false) && Le(q, x)
    ensures Le(q, k.upper) || PfMatch(k, q)
  {
    LeTotal(q, k.upper);
    if !Le(q, k.upper) {
      LeTransitive(k.lower, k.upper, q);
      if Le(x, k.upper) {
        LeTransitive(q, x, k.upper);
      } else if Prefix(k.lower, x) {
        assert k.lower[..|k.lower|] == k.lower;
        Between(k.lower, q, x, |k.lower|);
      } else {
        assert k.upper[..|k.upper|] == k.upper;
        Between(k.upper, q, x, |k.upper|);
      }
    }
  }

  lemma EqualBounds(k: Key, x: Bytes)
    requires Under(k, x) && k.lower == k.upper
    ensures x == k.lower
  {
    CommonIs(k.lower, k.upper, |k.lower|);
    LeAntisymmetric(x, k.lower);
  }

  // The index

  datatype Entry = Row(x: Bytes) | Node(parts: seq<Entry>, key: Key)

  function KeyOf(e: Entry): Key {
    match e
    case Row(x) => Key(x, x)
    case Node(_, key) => key
  }

  ghost function Keys(parts: seq<Entry>): seq<Key> {
    seq(|parts|, k requires 0 <= k < |parts| => KeyOf(parts[k]))
  }

  /** Every node key is the union of the keys below (an older key of the same node may be one of them). */
  ghost predicate Built(e: Entry) {
    e.Node? ==>
      e.parts != [] && e.key == UnionOf(Keys(e.parts)) && forall k :: 0 <= k < |e.parts| ==> Built(e.parts[k])
  }

  ghost predicate Below(e: Entry, x: Bytes) {
    match e
    case Row(y) => x == y
    case Node(parts, _) => exists k :: 0 <= k < |parts| && Below(parts[k], x)
  }

  /** However many cuts lie in between, a key stays true of every row below it. */
  lemma {:induction false} RowsStayUnder(e: Entry, x: Bytes)
    requires Built(e) && Below(e, x)
    ensures Ordered(KeyOf(e)) && Under(KeyOf(e), x)
    decreases e
  {
    match e
    case Row(_) => LeTotal(x, x);
    case Node(parts, key) =>
      var k :| 0 <= k < |parts| && Below(parts[k], x);
      RowsStayUnder(parts[k], x);
      UnionUnder(Keys(parts), k, x);
  }

  /** Node keys are never longer than two bytes behind the common prefix. */
  ghost predicate Short(k: Key) { |k.lower| <= Cp(k) + 2 && |k.upper| <= Cp(k) + 2 }

  lemma UnderIsFound(k: Key, x: Bytes)
    requires Under(k, x) && Short(k)
    ensures Test(Equal, k, x, false)
  {
    if !Le(x, k.upper) { assert k.upper[..|k.upper|] == k.upper; }
  }

  lemma RowIsShort(x: Bytes)
    ensures Short(Key(x, x))
  {
    CommonIs(x, x, |x|);
  }

  lemma UnionIsShort(keys: seq<Key>, i: nat)
    requires i < |keys| && Ordered(keys[i])
    ensures Short(UnionOf(keys))
  {
    var w := JoinAll(keys);
    JoinAllWider(keys, i);
    WiderCp(keys[i], w);
    TruncateCp(w, Cp(w) + 2);
  }

  lemma BuiltPasses(e: Entry, x: Bytes, s: Strategy, q: Bytes)
    requires Built(e) && e.Node? && Below(e, x) && Matches(s, x, q)
    ensures Test(s, e.key, q, false)
  {
    RowsStayUnder(e, x);
    var k :| 0 <= k < |e.parts| && Below(e.parts[k], x);
    RowsStayUnder(e.parts[k], x);
    UnionIsShort(Keys(e.parts), k);
    UnderIsFound(e.key, x);
    if e.key.lower == e.key.upper { EqualBounds(e.key, x); }
    EqualityDecides(e.key, x, s, q);
  }

  /** The search returns `x` from below `e`. */
  ghost predicate Reached(e: Entry, s: Strategy, q: Bytes, x: Bytes) {
    && Test(s, KeyOf(e), q, e.Row?)
    && match e
       case Row(y) => x == y
       case Node(parts, _) => exists k :: 0 <= k < |parts| && Reached(parts[k], s, q, x)
  }

  /** All six searches return exactly the matching rows. */
  lemma {:induction false} SearchIsExact(e: Entry, s: Strategy, q: Bytes, x: Bytes)
    requires Built(e)
    ensures Reached(e, s, q, x) <==> Below(e, x) && Matches(s, x, q)
    decreases e
  {
    if e.Node? {
      forall k | 0 <= k < |e.parts|
        ensures Reached(e.parts[k], s, q, x) <==> Below(e.parts[k], x) && Matches(s, x, q)
      {
        SearchIsExact(e.parts[k], s, q, x);
      }
      if Below(e, x) && Matches(s, x, q) { BuiltPasses(e, x, s, q); }
    }
  }
}
