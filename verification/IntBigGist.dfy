/**
 intarray's GiST opclass over bit signatures (contrib/intarray/_intbig_gist.c): the tests are inexact,
 but with the row looked at again a search returns exactly the matching rows.
 */
module IntBigGist {
  import opened IntGist
  import Q = IntQueryExec

  const SIGLENBIT: nat := 2016

  /** HASHVAL: the value as an unsigned 32-bit number, modulo the signature length. */
  function HashVal(x: int): (b: nat)
    ensures b < SIGLENBIT
  {
    (x % 0x1_0000_0000) % SIGLENBIT
  }

  datatype Key = AllTrue | Sign(bits: seq<bool>)

  ghost predicate ValidKey(key: Key) {
    key.Sign? ==> |key.bits| == SIGLENBIT
  }

  /** The key has bit `b` set. */
  predicate Bit(key: Key, b: nat) {
    key.AllTrue? || (b < |key.bits| && key.bits[b])
  }

  /** Some element of the row hashes to `b`. */
  ghost predicate Hashed(row: seq<int>, b: nat) {
    exists x :: x in row && HashVal(x) == b
  }

  ghost predicate SignOf(key: Key, row: seq<int>) {
    ValidKey(key) && key.Sign? && forall b :: 0 <= b < SIGLENBIT ==> (key.bits[b] <==> Hashed(row, b))
  }

  lemma HashedMore(row: seq<int>, i: nat, b: nat)
    requires i < |row|
    ensures Hashed(row[..i + 1], b) <==> Hashed(row[..i], b) || HashVal(row[i]) == b
  {
    assert row[..i + 1] == row[..i] + [row[i]];
  }

  /** The signature of a row: one bit for every element. */
  method LeafKey(row: seq<int>) returns (key: Key)
    ensures SignOf(key, row)
  {
    var sign := new bool[SIGLENBIT](_ => false);
    for i := 0 to |row|
      invariant forall b :: 0 <= b < SIGLENBIT ==> (sign[b] <==> Hashed(row[..i], b))
    {
      forall b | 0 <= b < SIGLENBIT ensures Hashed(row[..i + 1], b) <==> Hashed(row[..i], b) || HashVal(row[i]) == b {
        HashedMore(row, i, b);
      }
      sign[HashVal(row[i])] := true;
    }
    assert row[..|row|] == row;
    key := Sign(sign[..]);
  }

  /** An internal key with every bit set is replaced by a flag. */
  method Compress(key: Key) returns (r: Key)
    requires ValidKey(key)
    ensures ValidKey(r) && forall b :: 0 <= b < SIGLENBIT ==> (Bit(r, b) <==> Bit(key, b))
    ensures r.AllTrue? <==> forall b :: 0 <= b < SIGLENBIT ==> Bit(key, b)
  {
    if key.AllTrue? {
      return key;
    }
    for i := 0 to SIGLENBIT
      invariant forall b :: 0 <= b < i ==> key.bits[b]
    {
      if !key.bits[i] {
        assert !Bit(key, i);
        return key;
      }
    }
    r := AllTrue;
  }

  /** unionkey: ORs a signature into `base`; 1 when the added key covers everything already. */
  method UnionKey(base: array<bool>, add: Key) returns (all: bool)
    requires base.Length == SIGLENBIT && ValidKey(add)
    modifies base
    ensures all == add.AllTrue?
    ensures forall b :: 0 <= b < SIGLENBIT ==> base[b] == (old(base[b]) || (add.Sign? && add.bits[b]))
  {
    if add.AllTrue? {
      return true;
    }
    for i := 0 to SIGLENBIT
      invariant forall b :: 0 <= b < i ==> base[b] == (old(base[b]) || add.bits[b])
      invariant forall b :: i <= b < SIGLENBIT ==> base[b] == old(base[b])
    {
      base[i] := base[i] || add.bits[i];
    }
    all := false;
  }

  ghost predicate SomeBit(keys: seq<Key>, b: nat) {
    exists k :: 0 <= k < |keys| && Bit(keys[k], b)
  }

  ghost predicate JoinOf(keys: seq<Key>, key: Key) {
    ValidKey(key) && forall b :: 0 <= b < SIGLENBIT ==> (Bit(key, b) <==> SomeBit(keys, b))
  }

  lemma SomeBitMore(keys: seq<Key>, i: nat, b: nat)
    requires i < |keys|
    ensures SomeBit(keys[..i + 1], b) <==> SomeBit(keys[..i], b) || Bit(keys[i], b)
  {
    var s := keys[..i + 1];
    if SomeBit(s, b) {
      var k :| 0 <= k < |s| && Bit(s[k], b);
      assert k < i ==> Bit(keys[..i][k], b);
    }
    if SomeBit(keys[..i], b) {
      var k :| 0 <= k < i && Bit(keys[..i][k], b);
      assert Bit(s[k], b);
    }
    if Bit(keys[i], b) { assert Bit(s[i], b); }
  }

  /** g_intbig_union, followed by the compression of the result. */
  method NodeKey(keys: seq<Key>) returns (key: Key)
    requires forall k :: 0 <= k < |keys| ==> ValidKey(keys[k])
    ensures JoinOf(keys, key)
  {
    var base := new bool[SIGLENBIT](_ => false);
    for i := 0 to |keys|
      invariant forall b :: 0 <= b < SIGLENBIT ==> (base[b] <==> SomeBit(keys[..i], b))
    {
      forall b | 0 <= b < SIGLENBIT ensures SomeBit(keys[..i + 1], b) <==> SomeBit(keys[..i], b) || Bit(keys[i], b) {
        SomeBitMore(keys, i, b);
      }
      var all := UnionKey(base, keys[i]);
      if all {
        assert forall b: nat :: Bit(keys[i], b);
        return AllTrue;
      }
    }
    assert keys[..|keys|] == keys;
    key := Compress(Sign(base[..]));
  }

  // The index

  datatype Entry = Row(elems: seq<int>, key: Key) | Node(parts: seq<Entry>, key: Key)

  ghost function Keys(parts: seq<Entry>): seq<Key> {
    seq(|parts|, k requires 0 <= k < |parts| => parts[k].key)
  }

  ghost predicate Built(e: Entry) {
    match e
    case Row(elems, key) => SignOf(key, elems)
    case Node(parts, key) => JoinOf(Keys(parts), key) && forall k :: 0 <= k < |parts| ==> Built(parts[k])
  }

  ghost predicate Below(e: Entry, row: seq<int>) {
    match e
    case Row(elems, _) => row == elems
    case Node(parts, _) => exists k :: 0 <= k < |parts| && Below(parts[k], row)
  }

  /** The key has the bit of value `x`. */
  predicate HasValue(key: Key, x: int) { Bit(key, HashVal(x)) }

  lemma {:induction false} KeyCovers(e: Entry, row: seq<int>, x: int)
    requires Built(e) && Below(e, row) && x in row
    ensures HasValue(e.key, x)
    decreases e
  {
    match e
    case Row(_, key) =>
      assert Hashed(row, HashVal(x));
    case Node(parts, key) =>
      var k :| 0 <= k < |parts| && Below(parts[k], row);
      KeyCovers(parts[k], row, x);
      assert Bit(Keys(parts)[k], HashVal(x));
      assert SomeBit(Keys(parts), HashVal(x));
  }

  // Searches

  /** What the consistency function answers for a key. */
  ghost predicate Test(s: Search, key: Key, leaf: bool) {
    key.AllTrue? ||
    match s
    case Overlap(q) => exists x :: x in q && HasValue(key, x)
    case Contains(q) => forall x :: x in q ==> HasValue(key, x)
    case Same(q) => if leaf then SignOf(key, q) else forall x :: x in q ==> HasValue(key, x)
    case ContainedBy(q) =>
      if leaf then forall b: nat :: b < SIGLENBIT && Bit(key, b) ==> Hashed(q, b)
      else exists x :: x in q && HasValue(key, x)
    case Boolean(_, query) => Q.Relax(query, x => HasValue(key, x))
  }

  method BigOverlap(key: Key, q: seq<int>) returns (r: bool)
    ensures r <==> exists x :: x in q && HasValue(key, x)
  {
    for i := 0 to |q|
      invariant forall k :: 0 <= k < i ==> !HasValue(key, q[k])
    {
      if HasValue(key, q[i]) {
        assert q[i] in q;
        return true;
      }
    }
    r := false;
  }

  method BigContains(key: Key, q: seq<int>) returns (r: bool)
    ensures r <==> forall x :: x in q ==> HasValue(key, x)
  {
    for i := 0 to |q|
      invariant forall k :: 0 <= k < i ==> HasValue(key, q[k])
    {
      if !HasValue(key, q[i]) {
        assert q[i] in q;
        return false;
      }
    }
    r := true;
  }

  /** g_intbig_consistent. */
  method Consistent(s: Search, key: Key, leaf: bool) returns (retval: bool, recheck: bool)
    requires WellFormed(s) && ValidKey(key)
    ensures retval == Test(s, key, leaf) && recheck
  {
    recheck := true;
    if key.AllTrue? {
      return true, true;
    }
    match s
    case Boolean(items, query) =>
      var check := i => 0 <= i < |items| && items[i].node.Num? && HasValue(key, items[i].node.val);
      Q.ExecuteMeans(items, 0, query, false, x => HasValue(key, x), check);
      retval := Q.Execute(items, |items| - 1, false, check);
    case Overlap(q) =>
      retval := BigOverlap(key, q);
    case Contains(q) =>
      retval := BigContains(key, q);
    case Same(q) =>
      if leaf {
        var qp := LeafKey(q);
        retval := key.bits == qp.bits;
      } else {
        retval := BigContains(key, q);
      }
    case ContainedBy(q) =>
      if leaf {
        var qp := LeafKey(q);
        retval := true;
        for i := 0 to SIGLENBIT
          invariant retval == forall b :: 0 <= b < i && key.bits[b] ==> qp.bits[b]
        {
          retval := retval && (key.bits[i] ==> qp.bits[i]);
        }
      } else {
        retval := BigOverlap(key, q);
      }
  }

  ghost predicate Reached(e: Entry, s: Search, row: seq<int>) {
    && Test(s, e.key, e.Row?)
    && match e
       case Row(elems, _) => row == elems && Matches(s, row)
       case Node(parts, _) => exists k :: 0 <= k < |parts| && Reached(parts[k], s, row)
  }

  /** No test turns away a search from above a matching row, or from the row itself. */
  lemma TestCovers(e: Entry, s: Search, row: seq<int>)
    requires Built(e) && Below(e, row) && Matches(s, row)
    requires s.ContainedBy? && e.Node? ==> row != []
    ensures Test(s, e.key, e.Row?)
  {
    forall x | x in row ensures HasValue(e.key, x) { KeyCovers(e, row, x); }
    match s
    case Boolean(_, query) => Q.RelaxCovers(query, x => x in row, x => HasValue(e.key, x));
    case ContainedBy(q) =>
      if e.Node? {
        assert row[0] in q && HasValue(e.key, row[0]);
      } else {
        forall b: nat | b < SIGLENBIT && Bit(e.key, b) ensures Hashed(q, b) { assert Hashed(row, b); }
      }
    case _ =>
  }

  lemma {:induction false} SearchIsExact(e: Entry, s: Search, row: seq<int>)
    requires Built(e) && (s.ContainedBy? ==> row != [])
    ensures Reached(e, s, row) <==> Below(e, row) && Matches(s, row)
    decreases e
  {
    if e.Node? {
      forall k | 0 <= k < |e.parts|
        ensures Reached(e.parts[k], s, row) <==> Below(e.parts[k], row) && Matches(s, row)
      {
        SearchIsExact(e.parts[k], s, row);
      }
    }
    if Below(e, row) && Matches(s, row) { TestCovers(e, s, row); }
  }

  /** Contained-by finds a row in every index and for every query it matches, exactly when the row is not empty. */
  lemma ContainedByIff(row: seq<int>)
    ensures (forall e, q :: Built(e) && Below(e, row) && Within(row, q) ==> Reached(e, ContainedBy(q), row)) <==> row != []
  {
    if row == [] {
      var none := Sign(seq(SIGLENBIT, _ => false));
      var leaf := Entry.Row([], none);
      var e := Entry.Node([leaf], none);
      assert forall b :: !Hashed([], b);
      assert Keys([leaf]) == [none];
      assert Built(leaf) && Built(e) && Below(e.parts[0], row);
      assert Below(e, row) && Within(row, []) && !Reached(e, ContainedBy([]), row);
    } else {
      forall e, q | Built(e) && Below(e, row) && Within(row, q) ensures Reached(e, ContainedBy(q), row) {
        SearchIsExact(e, ContainedBy(q), row);
      }
    }
  }
}
