/**
 Page splits of btree_gist's variable-length keys (contrib/btree_gist/btree_utils_var.c, gbt_var_picksplit),
 and what becomes of searches in trees built by unions and splits together.
 */
module BtreeGistSplit {
  import opened Lexicographic
  import opened BtreeGistVar

  // One split

  /** gbt_var_picksplit cuts both halves behind the longer of the two common prefixes. */
  ghost function SplitLength(keys: seq<Key>, other: seq<Key>): nat
    requires keys != [] && other != []
  {
    var a, b := Cp(JoinAll(keys)), Cp(JoinAll(other));
    (if a < b then b else a) + 2
  }

  /** The key of the half with the entries `keys`. */
  ghost function HalfKey(keys: seq<Key>, other: seq<Key>): Key
    requires keys != [] && other != []
  {
    Truncate(JoinAll(keys), SplitLength(keys, other))
  }

  /**
   An entry of the page: its key, and the length its bounds were cut to. A union cuts two bytes behind the
   common prefix, an earlier split may have cut further behind it, and the key of a row is as good as cut there.
   */
  datatype Part = Part(key: Key, cut: nat)

  ghost predicate PartOk(p: Part) {
    Ordered(p.key) && Cp(p.key) + 2 <= p.cut && |p.key.lower| <= p.cut && |p.key.upper| <= p.cut
  }

  /** What an entry may have below it: `x` is in its range, or extends an upper bound that has its full length. */
  ghost predicate MayHold(p: Part, x: Bytes) {
    Le(p.key.lower, x) && (Le(x, p.key.upper) || Shares(p.key.upper, x, p.cut))
  }

  ghost function PartKeys(parts: seq<Part>): (keys: seq<Key>)
    ensures |keys| == |parts| && forall i :: 0 <= i < |parts| ==> keys[i] == parts[i].key
  {
    seq(|parts|, i requires 0 <= i < |parts| => parts[i].key)
  }

  lemma MayHoldUnder(p: Part, x: Bytes)
    requires PartOk(p) && MayHold(p, x)
    ensures Under(p.key, x)
  {
    if Shares(p.key.upper, x, p.cut) {
      var n := Cp(p.key) + 2;
      assert p.key.upper[..n] == p.key.upper[..p.cut][..n] == x[..p.cut][..n] == x[..n];
    }
  }

  /** A key of a union, or of a row, is an entry like this. */
  lemma ShortPart(k: Key, x: Bytes)
    requires Ordered(k) && Short(k)
    ensures PartOk(Part(k, Cp(k) + 2)) && (MayHold(Part(k, Cp(k) + 2), x) <==> Under(k, x))
  {
  }

  /** Bytes that nothing of the same length exceeds. */
  ghost predicate Full(a: Bytes) { forall i :: 0 <= i < |a| ==> a[i] == 255 }

  /**
   The cut key `t` of a half is finer than the upper bound of an entry `p` of it: that bound may stand
   for rows beyond it, which `t` no longer does.
   */
  ghost predicate Outgrown(p: Part, t: Key) {
    var u := p.key.upper;
    |u| == p.cut && Prefix(u, t.upper) && !Full(t.upper[|u|..]) && !Prefix(t.lower, u)
  }

  lemma PrefixTransitive(a: Bytes, b: Bytes, c: Bytes)
    requires Prefix(a, b) && Prefix(b, c)
    ensures Prefix(a, c)
  {
    assert c[..|a|] == c[..|b|][..|a|];
  }

  lemma PrefixesNest(a: Bytes, b: Bytes, c: Bytes)
    requires Prefix(a, c) && Prefix(b, c) && |a| <= |b|
    ensures Prefix(a, b)
  {
    assert c[..|a|] == c[..|b|][..|a|];
  }

  /** A row beyond a wider key extends the bound it was under, and so does that key's bound. */
  lemma BeyondExtends(p: Part, w: Key, x: Bytes)
    requires PartOk(p) && Wider(p.key, w) && MayHold(p, x) && !Le(x, w.upper)
    ensures var u := p.key.upper; |u| == p.cut && Prefix(u, x) && Prefix(u, w.upper) && Le(w.upper, x)
  {
    var u := p.key.upper;
    LeTotal(x, w.upper);
    if Le(x, u) { LeTransitive(x, u, w.upper); }
    assert u[..|u|] == u;
    Between(u, w.upper, x, |u|);
  }

  lemma BeyondIsFound(u: Bytes, w: Key, n: nat, x: Bytes)
    requires Prefix(u, x) && Prefix(u, w.upper) && Le(w.upper, x)
    requires Prefix(u, Cut(w.upper, n)) && !Full(Cut(w.upper, n)[|u|..]) ==> Prefix(Cut(w.lower, n), u)
    ensures PfMatch(Truncate(w, n), x)
  {
    var t := Truncate(w, n);
    CutPrefix(w.upper, n);
    if |t.upper| <= |u| {
      PrefixesNest(t.upper, u, w.upper);
      PrefixTransitive(t.upper, u, x);
    } else {
      PrefixesNest(u, t.upper, w.upper);
      if Prefix(t.lower, u) {
        PrefixTransitive(t.lower, u, x);
      } else {
        LeTransitive(t.upper, w.upper, x);
        FullIsPrefix(u, t.upper, x);
      }
    }
  }

  lemma NotOutgrown(p: Part, w: Key, n: nat, x: Bytes)
    requires PartOk(p) && Wider(p.key, w) && n >= Cp(w) + 2 && MayHold(p, x)
    requires !Outgrown(p, Truncate(w, n))
    ensures Test(Equal, Truncate(w, n), x, false)
  {
    if Le(x, w.upper) {
      WiderCp(p.key, w);
      LeTransitive(w.lower, p.key.lower, x);
      TruncateUnder(w, n, x);
    } else {
      BeyondExtends(p, w, x);
      BeyondIsFound(p.key.upper, w, n, x);
    }
  }

  lemma FullIsPrefix(u: Bytes, t: Bytes, x: Bytes)
    requires Prefix(u, t) && Prefix(u, x) && Full(t[|u|..]) && Le(t, x)
    ensures Prefix(t, x)
  {
    forall i | |u| <= i < |t| ensures t[i] == 255 { assert t[|u|..][i - |u|] == t[i]; }
    CommonIs(t, x, |u|);
    assert t[..|t|] == t;
  }

  lemma FullIsLast(u: Bytes, t: Bytes, x: Bytes)
    requires |t| == |x| && t != x && Prefix(u, t) && Prefix(u, x) && Full(x[|u|..])
    ensures !Le(x, t)
  {
    forall i | |u| <= i < |x| ensures x[i] == 255 { assert x[|u|..][i - |u|] == x[i]; }
    CommonIs(x, t, |u|);
    assert x[..|x|] == x && t[..|x|] == t;
  }

  /** A row that an outgrown entry may have below it and that equality no longer finds. */
  lemma OutgrownLoses(p: Part, w: Key, n: nat) returns (x: Bytes)
    requires PartOk(p) && Wider(p.key, w) && Outgrown(p, Truncate(w, n))
    ensures MayHold(p, x) && !Test(Equal, Truncate(w, n), x, false)
  {
    var t, u := Truncate(w, n), p.key.upper;
    x := FullExtension(u, t.upper);
    PrefixLe(u, x);
    LeTransitive(p.key.lower, u, x);
    assert Shares(u, x, p.cut);
    assert !Prefix(t.lower, x) by { LowerIsNoPrefix(p.key, w, n, x); }
  }

  lemma FullExtension(u: Bytes, t: Bytes) returns (x: Bytes)
    requires Prefix(u, t) && !Full(t[|u|..])
    ensures Prefix(u, x) && !Le(x, t) && !Prefix(t, x)
  {
    x := u + seq(|t| - |u|, _ => 255);
    var i :| 0 <= i < |t[|u|..]| && t[|u|..][i] != 255;
    assert t[|u| + i] != x[|u| + i];
    assert x[..|x|] == x;
    FullIsLast(u, t, x);
  }

  lemma LowerIsNoPrefix(k: Key, w: Key, n: nat, x: Bytes)
    requires Ordered(k) && Wider(k, w) && Prefix(k.upper, x) && !Prefix(Cut(w.lower, n), k.upper)
    ensures !Prefix(Cut(w.lower, n), x)
  {
    var t, u := Cut(w.lower, n), k.upper;
    if Prefix(t, x) {
      if |t| <= |u| {
        PrefixesNest(t, u, x);
      } else {
        PrefixesNest(u, t, x);
        LowerNotLonger(k, w, n);
      }
      assert false;
    }
  }

  /** The cut lower bound is no proper extension of an upper bound above it. */
  lemma LowerNotLonger(k: Key, w: Key, n: nat)
    requires Ordered(k) && Wider(k, w) && Prefix(k.upper, Cut(w.lower, n))
    ensures |Cut(w.lower, n)| <= |k.upper|
  {
    var t, u := Cut(w.lower, n), k.upper;
    CutPrefix(w.lower, n);
    LeTransitive(t, w.lower, k.lower);
    LeTransitive(t, k.lower, u);
    PrefixLe(u, t);
    LeAntisymmetric(u, t);
  }

  ghost predicate NoneOutgrown(parts: seq<Part>, t: Key) {
    forall i :: 0 <= i < |parts| ==> !Outgrown(parts[i], t)
  }

  ghost predicate SplitParts(parts: seq<Part>) {
    parts != [] && forall i :: 0 <= i < |parts| ==> PartOk(parts[i])
  }

  /** Every row that may be below an entry of the half is found by every search it matches. */
  ghost predicate KeepsAll(parts: seq<Part>, t: Key) {
    forall i, x :: 0 <= i < |parts| && MayHold(parts[i], x) ==> Passes(t, x)
  }

  lemma SplitPasses(k: Key, w: Key, n: nat, x: Bytes)
    requires Ordered(k) && Wider(k, w) && n >= Cp(w) + 2 && Under(k, x)
    ensures Passes(Truncate(w, n), x) <==> Test(Equal, Truncate(w, n), x, false)
  {
    var t := Truncate(w, n);
    WiderCp(k, w);
    TruncateCp(w, n);
    WiderUnder(k, w, x);
    CutPrefix(w.lower, n);
    LeTransitive(t.lower, w.lower, x);
    if w.lower == w.upper { EqualBounds(w, x); }
    assert w.lower == w.upper ==> t == w by { if w.lower == w.upper { CommonIs(w.lower, w.upper, |w.lower|); } }
    if Test(Equal, t, x, false) {
      forall s, q | Matches(s, x, q) ensures Test(s, t, q, false) { EqualityDecides(t, x, s, q); }
    } else {
      assert Matches(Equal, x, x);
    }
  }

  /**
   A half of a page split keeps every row its entries may stand for if and only if its key has outgrown
   none of them. Cut to the half's own length, as a union cuts it, no key has; cut to the length of the
   other half it may have.
   */
  lemma SplitKeepsAllIff(parts: seq<Part>, other: seq<Key>)
    requires SplitParts(parts) && other != []
    ensures var t := HalfKey(PartKeys(parts), other); KeepsAll(parts, t) <==> NoneOutgrown(parts, t)
  {
    var keys := PartKeys(parts);
    var w, n, t := JoinAll(keys), SplitLength(keys, other), HalfKey(keys, other);
    if NoneOutgrown(parts, t) {
      forall i, x | 0 <= i < |parts| && MayHold(parts[i], x) ensures Passes(t, x) {
        JoinAllWider(keys, i);
        NotOutgrown(parts[i], w, n, x);
        MayHoldUnder(parts[i], x);
        SplitPasses(parts[i].key, w, n, x);
      }
    } else {
      var i :| 0 <= i < |parts| && Outgrown(parts[i], t);
      JoinAllWider(keys, i);
      var x := OutgrownLoses(parts[i], w, n);
      MayHoldUnder(parts[i], x);
      SplitPasses(parts[i].key, w, n, x);
      assert !Passes(t, x);
    }
  }

  lemma OwnLengthNeverOutgrows(parts: seq<Part>, i: nat)
    requires SplitParts(parts) && i < |parts|
    ensures !Outgrown(parts[i], UnionOf(PartKeys(parts)))
  {
    var w, k := JoinAll(PartKeys(parts)), parts[i].key;
    JoinAllWider(PartKeys(parts), i);
    WiderCp(k, w);
  }

  lemma JoinRow(k: Key, x: Bytes)
    requires Ordered(k) && Under(k, x)
    ensures Join(Join(Key(k.lower, k.lower), Key(k.upper, k.upper)), Key(x, x)) ==
            Key(k.lower, if Le(x, k.upper) then k.upper else x)
  {
    if Le(k.upper, k.lower) { LeAntisymmetric(k.lower, k.upper); }
  }

  lemma ThreeKeys(keys: seq<Key>)
    requires |keys| == 3
    ensures JoinAll(keys) == Join(Join(keys[0], keys[1]), keys[2])
  {
    var two := keys[..2];
    assert two[..1] == [keys[0]];
    assert JoinAll(two[..1]) == keys[0];
    assert JoinAll(two) == Join(keys[0], keys[1]);
  }

  /** Joined with the row, a short key comes out of the union as it was. */
  lemma CutRow(k: Key, x: Bytes)
    requires Ordered(k) && Short(k) && Under(k, x)
    ensures var w := Key(k.lower, if Le(x, k.upper) then k.upper else x); Truncate(w, Cp(w) + 2) == k
  {
    if !Le(x, k.upper) {
      var c := Cp(k);
      assert x[..c] == x[..c + 2][..c] == k.upper[..c + 2][..c] == k.lower[..c];
      assert x[c] == x[..c + 2][c] == k.upper[..c + 2][c] == k.upper[c];
      CommonIs(k.lower, x, c);
    }
  }

  /** Whatever row a short key may stand for, there is an index in which that row is below that key. */
  lemma UnderIsReal(k: Key, x: Bytes) returns (e: Entry)
    requires Ordered(k) && Short(k) && Under(k, x)
    ensures e.Node? && Built(e) && e.key == k && Below(e, x)
  {
    var parts := [Row(k.lower), Row(k.upper), Row(x)];
    e := Node(parts, k);
    assert Below(parts[2], x);
    var keys := Keys(parts);
    assert keys == [Key(k.lower, k.lower), Key(k.upper, k.upper), Key(x, x)];
    assert UnionOf(keys) == k by {
      ThreeKeys(keys);
      JoinRow(k, x);
      CutRow(k, x);
    }
  }

  /** gbt_vsrt_cmp: by lower bound, then by upper bound. */
  ghost predicate InOrder(a: Key, b: Key) { Le(a.lower, b.lower) && (a.lower == b.lower ==> Le(a.upper, b.upper)) }

  /** gbt_var_picksplit sorts the entries and puts the first half of them to the left. */
  ghost predicate PickSplit(left: seq<Key>, right: seq<Key>) {
    && |left| == (|left| + |right|) / 2
    && forall i :: 0 < i < |left + right| ==> InOrder((left + right)[i - 1], (left + right)[i])
  }

  lemma JoinedLeft()
    ensures JoinAll([Key([1], [2, 2]), Key([2, 2, 3], [2, 2, 3])]) == Key([1], [2, 2, 3])
  {
    var left := [Key([1], [2, 2]), Key([2, 2, 3], [2, 2, 3])];
    assert left[..1] == [left[0]];
    CommonIs([1], [2, 2, 3], 0);
    CommonIs([2, 2, 3], [2, 2], 2);
  }

  lemma JoinedRight()
    ensures JoinAll([Key([3, 3], [3, 3]), Key([3, 3], [3, 3])]) == Key([3, 3], [3, 3]) && Cp(Key([3, 3], [3, 3])) == 2
  {
    var right := [Key([3, 3], [3, 3]), Key([3, 3], [3, 3])];
    assert right[..1] == [right[0]];
    CommonIs([3, 3], [3, 3], 2);
  }

  lemma ShortEntries()
    ensures Ordered(Key([1], [2, 2])) && Cp(Key([1], [2, 2])) == 0
    ensures SplitParts([Part(Key([1], [2, 2]), 2), Part(Key([2, 2, 3], [2, 2, 3]), 5)])
  {
    var k, r := Key([1], [2, 2]), Key([2, 2, 3], [2, 2, 3]);
    CommonIs(k.lower, k.upper, 0);
    CommonIs(r.lower, r.upper, 3);
  }

  lemma EntriesInOrder()
    ensures PickSplit([Key([1], [2, 2]), Key([2, 2, 3], [2, 2, 3])], [Key([3, 3], [3, 3]), Key([3, 3], [3, 3])])
  {
    CommonIs([1], [2, 2, 3], 0);
    CommonIs([2, 2, 3], [3, 3], 0);
    LeTotal([3, 3], [3, 3]);
  }

  function LeftKeys(): seq<Key> { [Key([1], [2, 2]), Key([2, 2, 3], [2, 2, 3])] }

  function RightKeys(): seq<Key> { [Key([3, 3], [3, 3]), Key([3, 3], [3, 3])] }

  lemma LeftHalf()
    ensures HalfKey(LeftKeys(), RightKeys()) == Key([1], [2, 2, 3])
  {
    JoinedLeft();
    JoinedRight();
    var w := Key([1], [2, 2, 3]);
    assert Cp(w) == 0 by { CommonIs(w.lower, w.upper, 0); }
  }

  /** A split that loses rows: [2, 2, 9] may lie below ([1], [2, 2]) but not below the half key ([1], [2, 2, 3]). */
  lemma SplitCanLose()
    ensures var parts := [Part(Key([1], [2, 2]), 2), Part(Key([2, 2, 3], [2, 2, 3]), 5)];
      && PartKeys(parts) == LeftKeys() && SplitParts(parts) && PickSplit(LeftKeys(), RightKeys())
      && !KeepsAll(parts, HalfKey(LeftKeys(), RightKeys()))
  {
    var parts := [Part(Key([1], [2, 2]), 2), Part(Key([2, 2, 3], [2, 2, 3]), 5)];
    assert PartKeys(parts) == LeftKeys();
    ShortEntries();
    EntriesInOrder();
    LeftHalf();
    var w := Key([1], [2, 2, 3]);
    assert w.upper[2..] == [3];
    assert Outgrown(parts[0], w);
    SplitKeepsAllIff(parts, RightKeys());
  }

  // Trees of unions and splits

  /** The key of a union of the keys, or of a half of a split with these keys. */
  ghost predicate NodeKey(keys: seq<Key>, key: Key) {
    keys != [] && (key == UnionOf(keys) || exists other :: other != [] && key == HalfKey(keys, other))
  }

  ghost predicate BuiltBoth(e: Entry) {
    e.Node? ==> NodeKey(Keys(e.parts), e.key) && forall k :: 0 <= k < |e.parts| ==> BuiltBoth(e.parts[k])
  }

  /** Either way the joined key is cut at least two bytes behind its common prefix. */
  lemma NodeKeyIsCut(keys: seq<Key>, key: Key) returns (n: nat)
    requires NodeKey(keys, key)
    ensures n >= Cp(JoinAll(keys)) + 2 && key == Truncate(JoinAll(keys), n)
  {
    if key == UnionOf(keys) {
      n := Cp(JoinAll(keys)) + 2;
    } else {
      var other :| other != [] && key == HalfKey(keys, other);
      n := SplitLength(keys, other);
    }
  }

  /** The row lies beyond the key's range and starts with neither of its bounds. */
  ghost predicate Beyond(k: Key, x: Bytes) { !Le(x, k.upper) && !PfMatch(k, x) }

  /** The row is in the tree, at a place where it lies beyond none of the keys above it. */
  ghost predicate InBounds(e: Entry, x: Bytes) {
    match e
    case Row(y) => x == y
    case Node(parts, key) => !Beyond(key, x) && exists k :: 0 <= k < |parts| && InBounds(parts[k], x)
  }

  lemma {:induction false} InBoundsBelow(e: Entry, x: Bytes)
    requires InBounds(e, x)
    ensures Below(e, x)
    decreases e
  {
    if e.Node? {
      var k :| 0 <= k < |e.parts| && InBounds(e.parts[k], x);
      InBoundsBelow(e.parts[k], x);
    }
  }

  lemma CutKeyHolds(k: Key, w: Key, n: nat, x: Bytes)
    requires Ordered(k) && Wider(k, w) && n >= Cp(w) + 2 && Le(k.lower, x) && (k.lower == k.upper ==> x == k.lower)
    ensures var t := Truncate(w, n); Ordered(t) && Le(t.lower, x) && (t.lower == t.upper ==> x == t.lower)
  {
    WiderCp(k, w);
    TruncateCp(w, n);
    CutPrefix(w.lower, n);
    LeTransitive(w.lower, k.lower, x);
    LeTransitive(Cut(w.lower, n), w.lower, x);
    if w.lower == w.upper {
      CommonIs(w.lower, w.upper, |w.lower|);
      LeTransitive(w.lower, k.lower, k.upper);
      LeTransitive(k.lower, k.upper, w.upper);
      LeAntisymmetric(w.lower, k.lower);
      LeAntisymmetric(k.upper, w.upper);
    }
  }

  /** Lower bounds always hold, and equal bounds leave room for one row only. */
  lemma {:induction false} LowerHolds(e: Entry, x: Bytes)
    requires BuiltBoth(e) && Below(e, x)
    ensures var k := KeyOf(e); Ordered(k) && Le(k.lower, x) && (k.lower == k.upper ==> x == k.lower)
    decreases e
  {
    if e.Row? {
      LeTotal(x, x);
    } else {
      var k :| 0 <= k < |e.parts| && Below(e.parts[k], x);
      LowerHolds(e.parts[k], x);
      var keys := Keys(e.parts);
      var n := NodeKeyIsCut(keys, e.key);
      JoinAllWider(keys, k);
      CutKeyHolds(keys[k], JoinAll(keys), n, x);
    }
  }

  /** A search returns only rows of the tree that match. */
  lemma {:induction false} ReachedMatches(e: Entry, s: Strategy, q: Bytes, x: Bytes)
    requires Reached(e, s, q, x)
    ensures Below(e, x) && Matches(s, x, q)
    decreases e
  {
    if e.Node? {
      var k :| 0 <= k < |e.parts| && Reached(e.parts[k], s, q, x);
      ReachedMatches(e.parts[k], s, q, x);
    }
  }

  lemma {:induction false} InBoundsReached(e: Entry, s: Strategy, q: Bytes, x: Bytes)
    requires BuiltBoth(e) && InBounds(e, x) && Matches(s, x, q)
    ensures Reached(e, s, q, x)
    decreases e
  {
    if e.Node? {
      var k :| 0 <= k < |e.parts| && InBounds(e.parts[k], x);
      InBoundsReached(e.parts[k], s, q, x);
      InBoundsBelow(e, x);
      LowerHolds(e, x);
      EqualityDecides(e.key, x, s, q);
    }
  }

  lemma {:induction false} EqualityNeedsBounds(e: Entry, x: Bytes)
    requires Reached(e, Equal, x, x)
    ensures InBounds(e, x)
    decreases e
  {
    if e.Node? {
      var k :| 0 <= k < |e.parts| && Reached(e.parts[k], Equal, x, x);
      EqualityNeedsBounds(e.parts[k], x);
    }
  }

  /**
   In every tree of unions and splits a search returns only matching rows; and every search that a row
   matches returns it, if and only if the row has a place where it lies beyond none of the keys above it.
   */
  lemma SplitSearchIff(e: Entry, x: Bytes)
    requires BuiltBoth(e)
    ensures forall s, q :: Reached(e, s, q, x) ==> Below(e, x) && Matches(s, x, q)
    ensures (forall s, q :: Matches(s, x, q) ==> Reached(e, s, q, x)) <==> InBounds(e, x)
  {
    forall s, q | Reached(e, s, q, x) ensures Below(e, x) && Matches(s, x, q) { ReachedMatches(e, s, q, x); }
    if InBounds(e, x) {
      forall s, q | Matches(s, x, q) ensures Reached(e, s, q, x) { InBoundsReached(e, s, q, x); }
    } else {
      assert Matches(Equal, x, x);
      if Reached(e, Equal, x, x) { EqualityNeedsBounds(e, x); }
    }
  }

  /** Without splits every row has such a place. */
  lemma {:induction false} UnionsInBounds(e: Entry, x: Bytes)
    requires Built(e) && Below(e, x)
    ensures InBounds(e, x)
    decreases e
  {
    if e.Node? {
      var k :| 0 <= k < |e.parts| && Below(e.parts[k], x);
      UnionsInBounds(e.parts[k], x);
      RowsStayUnder(e, x);
      RowsStayUnder(e.parts[k], x);
      UnionIsShort(Keys(e.parts), k);
      UnderIsFound(e.key, x);
    }
  }

  // A tree that has lost a row

  lemma UnionLeft()
    ensures UnionOf([Key([1], [1]), Key([2, 2, 9], [2, 2, 9])]) == Key([1], [2, 2])
  {
    var keys: seq<Key> := [Key([1], [1]), Key([2, 2, 9], [2, 2, 9])];
    assert keys[..1] == [keys[0]];
    CommonIs([1], [2, 2, 9], 0);
    CommonIs([2, 2, 9], [1], 0);
  }

  lemma UnionRight()
    ensures UnionOf([Key([2, 2, 3], [2, 2, 3])]) == Key([2, 2, 3], [2, 2, 3])
  {
    CommonIs([2, 2, 3], [2, 2, 3], 3);
  }

  function FirstPart(): Entry { Node([Row([1]), Row([2, 2, 9])], Key([1], [2, 2])) }

  function SecondPart(): Entry { Node([Row([2, 2, 3])], Key([2, 2, 3], [2, 2, 3])) }

  function LostTree(): Entry { Node([FirstPart(), SecondPart()], Key([1], [2, 2, 3])) }

  lemma FirstPartBuilt()
    ensures BuiltBoth(FirstPart()) && Below(FirstPart(), [2, 2, 9])
  {
    var e := FirstPart();
    assert Keys(e.parts) == [Key([1], [1]), Key([2, 2, 9], [2, 2, 9])];
    UnionLeft();
    assert Below(e.parts[1], [2, 2, 9]);
  }

  lemma SecondPartBuilt()
    ensures BuiltBoth(SecondPart())
  {
    assert Keys(SecondPart().parts) == [Key([2, 2, 3], [2, 2, 3])];
    UnionRight();
  }

  lemma TwoKeys(a: Entry, b: Entry)
    ensures Keys([a, b]) == [KeyOf(a), KeyOf(b)]
  {
  }

  lemma NodeBuilt(parts: seq<Entry>, key: Key, x: Bytes)
    requires parts != [] && (forall k :: 0 <= k < |parts| ==> BuiltBoth(parts[k])) && NodeKey(Keys(parts), key)
    requires Below(parts[0], x)
    ensures BuiltBoth(Node(parts, key)) && Below(Node(parts, key), x)
  {
  }

  lemma BeyondMissed(e: Entry, x: Bytes)
    requires e.Node? && Beyond(e.key, x)
    ensures !Reached(e, Equal, x, x)
  {
  }

  lemma BeyondHalf()
    ensures Beyond(Key([1], [2, 2, 3]), [2, 2, 9])
  {
    var x: Bytes := [2, 2, 9];
    CommonIs(x, [2, 2, 3], 2);
    assert x[..1] == [2] && x[..3] == x;
  }

  /** Two unions and a split of four entries: the row [2, 2, 9] is in the tree, and a search for it does not find it. */
  lemma SearchCanMiss()
    ensures BuiltBoth(LostTree()) && Below(LostTree(), [2, 2, 9]) && !Reached(LostTree(), Equal, [2, 2, 9], [2, 2, 9])
  {
    FirstPartBuilt();
    SecondPartBuilt();
    LeftHalf();
    assert NodeKey(LeftKeys(), Key([1], [2, 2, 3])) by { assert RightKeys() != []; }
    TwoKeys(FirstPart(), SecondPart());
    NodeBuilt([FirstPart(), SecondPart()], Key([1], [2, 2, 3]), [2, 2, 9]);
    BeyondHalf();
    BeyondMissed(LostTree(), [2, 2, 9]);
  }
}
