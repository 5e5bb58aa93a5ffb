/** The operators on packed hstores (contrib/hstore/hstore_op.c): what they do to the map, pair by pair. */
module HstoreOps {
  import opened Lexicographic
  import opened Buffers
  import opened Hstore
  import opened HstorePairs
  import opened Wrappers

  // Lookup

  /** All keys of `ps` before `low` come before `key`. */
  ghost predicate Past(ps: seq<Pair>, low: int, key: Bytes) {
    0 <= low <= |ps| && forall i :: 0 <= i < low ==> KeyLt(ps[i].key, key)
  }

  /**
   hstoreFindKey: binary search from a lower bound carried over from the last search; the new bound is
   good for every later key.
   */
  method FindKey(hs: HStore, lowbound: nat, key: Bytes, ghost ps: seq<Pair>) returns (idx: int, low: nat)
    requires Is(hs, ps) && Past(ps, lowbound, key)
    ensures if idx >= 0 then idx < |ps| && ps[idx].key == key else !HasKey(ps, key)
    ensures low <= |ps| && forall i :: 0 <= i < low ==> KeyLe(ps[i].key, key)
  {
    var stopLow, stopHigh := lowbound, Count(hs);
    assert stopHigh == |ps|;
    while stopLow < stopHigh
      invariant stopLow <= stopHigh <= |ps| && Past(ps, stopLow, key)
      invariant forall i :: stopHigh <= i < |ps| ==> KeyLt(key, ps[i].key)
    {
      var stopMiddle := stopLow + (stopHigh - stopLow) / 2;
      ReadBack(ps, stopMiddle);
      var difference := KeyCompare(StringAt(hs, 2 * stopMiddle), key);
      if difference == 0 {
        UpToKey(ps, stopMiddle);
        return stopMiddle, stopMiddle + 1;
      } else if difference < 0 {
        UpTo(ps, stopMiddle, key);
        stopLow := stopMiddle + 1;
      } else {
        From(ps, stopMiddle, key);
        stopHigh := stopMiddle;
      }
    }
    idx, low := -1, stopLow;
  }

  lemma UpTo(ps: seq<Pair>, m: nat, key: Bytes)
    requires Sorted(ps) && m < |ps| && KeyLt(ps[m].key, key)
    ensures Past(ps, m + 1, key)
  {
    forall i | 0 <= i < m ensures KeyLt(ps[i].key, key) { KeyLtTransitive(ps[i].key, ps[m].key, key); }
  }

  lemma UpToKey(ps: seq<Pair>, m: nat)
    requires Sorted(ps) && m < |ps|
    ensures forall i :: 0 <= i < m + 1 ==> KeyLe(ps[i].key, ps[m].key)
  {
    KeyOrder(ps[m].key, ps[m].key);
  }

  lemma From(ps: seq<Pair>, m: nat, key: Bytes)
    requires Sorted(ps) && m < |ps| && KeyLt(key, ps[m].key)
    ensures forall i :: m <= i < |ps| ==> KeyLt(key, ps[i].key)
  {
    forall i | m < i < |ps| ensures KeyLt(key, ps[i].key) { KeyLtTransitive(key, ps[m].key, ps[i].key); }
  }

  lemma PastLater(ps: seq<Pair>, low: nat, key: Bytes, next: Bytes)
    requires low <= |ps| && (forall i :: 0 <= i < low ==> KeyLe(ps[i].key, key)) && KeyLt(key, next)
    ensures Past(ps, low, next)
  {
    forall i | 0 <= i < low ensures KeyLt(ps[i].key, next) { KeyLtTransitive(ps[i].key, key, next); }
  }

  lemma SameKeySamePair(ps: seq<Pair>, idx: nat, p: Pair)
    requires Sorted(ps) && idx < |ps| && ps[idx].key == p.key
    ensures p in ps <==> ps[idx] == p
  {
    if p in ps {
      var i :| 0 <= i < |ps| && ps[i] == p;
      assert i == idx;
    }
  }

  /** Is item `i` of the template in the value? The new bound is good for the next item. */
  method HasItem(val: HStore, tmpl: HStore, lastidx: nat, i: nat, ghost vs: seq<Pair>, ghost ts: seq<Pair>)
    returns (res: bool, low: nat)
    requires Is(val, vs) && Is(tmpl, ts) && i < |ts| && Past(vs, lastidx, ts[i].key)
    ensures res <==> ts[i] in vs
    ensures i + 1 < |ts| ==> Past(vs, low, ts[i + 1].key)
  {
    ReadBack(ts, i);
    var idx;
    idx, low := FindKey(val, lastidx, StringAt(tmpl, 2 * i), vs);
    if idx >= 0 {
      ReadBack(vs, idx);
      SameKeySamePair(vs, idx, ts[i]);
      res := ValAt(tmpl, i) == ValAt(val, idx);
    } else {
      res := false;
    }
    if i + 1 < |ts| { PastLater(vs, low, ts[i].key, ts[i + 1].key); }
  }

  /** hstore_contains: is the template a part of the value? */
  method Contains(val: HStore, tmpl: HStore, ghost vs: seq<Pair>, ghost ts: seq<Pair>) returns (res: bool)
    requires Is(val, vs) && Is(tmpl, ts)
    ensures res <==> forall p :: p in ts ==> p in vs
  {
    res := true;
    var lastidx, i := 0, 0;
    while res && i < Count(tmpl)
      invariant 0 <= i <= |ts| && (i < |ts| ==> Past(vs, lastidx, ts[i].key))
      invariant res <==> forall k :: 0 <= k < i ==> ts[k] in vs
    {
      res, lastidx := HasItem(val, tmpl, lastidx, i, vs, ts);
      i := i + 1;
    }
  }

  // Reading and copying items

  /** Copies item `k`. */
  method CopyPair(d: Dest, h: HStore, k: nat, ghost src: seq<Pair>, ghost out: seq<Pair>) returns (e: Dest)
    requires h == Layout(src) && k < |src| && Holds(d, out) && Room(d, out, src[k])
    ensures Holds(e, out + [src[k]]) && SameRoom(d, e)
  {
    ReadBack(src, k);
    var klen, vlen := |StringAt(h, 2 * k)|, |StringAt(h, 2 * k + 1)|;
    var flat := h.str[Off(h, 2 * k)..h.entries[2 * k + 1].endpos];
    e := CopyItem(d, flat, klen, vlen, h.entries[2 * k + 1].isnull, out, src[k]);
  }

  /** VARSIZE of an exactly sized hstore. */
  method SizeOf(h: HStore, ghost ps: seq<Pair>) returns (n: nat)
    requires h == Layout(ps)
    ensures n == Size(ps) && (Count(h) == 0 <==> ps == [])
  {
    n := 8 * Count(h) + 8 + |h.str|;
  }

  /** Which of the two current items goes first; an exhausted list goes last. */
  method ItemOrder(s1: HStore, s2: HStore, i: nat, j: nat, ghost ps: seq<Pair>, ghost qs: seq<Pair>) returns (c: int)
    requires s1 == Layout(ps) && s2 == Layout(qs) && i <= |ps| && j <= |qs| && (i < |ps| || j < |qs|)
    ensures c < 0 <==> i < |ps| && (j < |qs| ==> KeyLt(ps[i].key, qs[j].key))
    ensures c == 0 <==> i < |ps| && j < |qs| && ps[i].key == qs[j].key
  {
    if i >= Count(s1) {
      return 1;
    }
    if j >= Count(s2) {
      return -1;
    }
    var key1 := GetKey(s1, i, ps);
    var key2 := GetKey(s2, j, qs);
    c := KeyCompare(key1, key2);
  }

  method SameValue(hs: HStore, hs2: HStore, i: nat, j: nat, ghost ps: seq<Pair>, ghost qs: seq<Pair>) returns (same: bool)
    requires hs == Layout(ps) && hs2 == Layout(qs) && i < |ps| && j < |qs|
    ensures same == (ps[i].val == qs[j].val)
  {
    var v := GetVal(hs, i, ps);
    var v2 := GetVal(hs2, j, qs);
    same := v == v2;
  }

  // Deleting

  /** `ms` lists, in order, the pairs of `ps` that `keep` holds of. */
  ghost predicate Picks(ms: seq<Pair>, ps: seq<Pair>, keep: Pair -> bool) {
    Sorted(ms) && forall p :: p in ms <==> p in ps && keep(p)
  }

  ghost function OtherKey(key: Bytes): Pair -> bool { (p: Pair) => p.key != key }

  ghost function KeyNotIn(ks: seq<Pair>): Pair -> bool { (p: Pair) => !HasKey(ks, p.key) }

  ghost function NotIn(qs: seq<Pair>): Pair -> bool { (p: Pair) => p !in qs }

  lemma PickNext(out: seq<Pair>, ps: seq<Pair>, i: nat, keep: Pair -> bool)
    requires Sorted(ps) && i < |ps| && Picks(out, ps[..i], keep)
    ensures Picks(if keep(ps[i]) then out + [ps[i]] else out, ps[..i + 1], keep)
  {
    assert ps[..i + 1] == ps[..i] + [ps[i]];
    if keep(ps[i]) {
      if out != [] { assert out[|out| - 1] in ps[..i]; }
      AppendSorted(out, ps[i]);
    }
  }

  /** `out` is what `keep` leaves of the first `i` pairs, and takes no more room than they do. */
  ghost predicate Picked(ps: seq<Pair>, i: int, keep: Pair -> bool, out: seq<Pair>) {
    0 <= i <= |ps| && |out| <= i && TotalLen(out) <= Sum(ps, i) && Picks(out, ps[..i], keep)
  }

  /** The hstore under construction holds `out` and has room for all of `ps`. */
  ghost predicate RoomFor(d: Dest, ps: seq<Pair>, out: seq<Pair>) {
    Holds(d, out) && d.maxItems == |ps| && d.maxBytes == TotalLen(ps)
  }

  lemma PickedNext(ps: seq<Pair>, i: nat, keep: Pair -> bool, out: seq<Pair>)
    requires Sorted(ps) && i < |ps| && Picked(ps, i, keep, out)
    ensures Picked(ps, i + 1, keep, if keep(ps[i]) then out + [ps[i]] else out)
    ensures |out| < |ps| && TotalLen(out) + ItemLen(ps[i]) <= TotalLen(ps)
  {
    PickNext(out, ps, i, keep);
    SumUpTo(ps, i + 1, |ps|);
    TotalMore(out, ps[i]);
  }

  /** Copies item `i` if it is to be kept. */
  method CopyNext(d: Dest, hs: HStore, i: nat, wanted: bool, ghost ps: seq<Pair>, ghost keep: Pair -> bool,
                  ghost out: seq<Pair>)
    returns (e: Dest, ghost out': seq<Pair>)
    requires Is(hs, ps) && i < |ps| && RoomFor(d, ps, out) && Picked(ps, i, keep, out) && wanted == keep(ps[i])
    ensures RoomFor(e, ps, out') && Picked(ps, i + 1, keep, out')
  {
    PickedNext(ps, i, keep, out);
    e, out' := d, out;
    if wanted {
      e := CopyPair(d, hs, i, ps, out);
      out' := out + [ps[i]];
    }
  }

  method StartCopy(hs: HStore, ghost ps: seq<Pair>, ghost keep: Pair -> bool) returns (d: Dest)
    requires Is(hs, ps)
    ensures RoomFor(d, ps, []) && Picked(ps, 0, keep, [])
  {
    d := Dest([], [], Count(hs), |hs.str|);
  }

  method FinishCopy(d: Dest, ghost ps: seq<Pair>, ghost keep: Pair -> bool, ghost ms: seq<Pair>) returns (out: HStore)
    requires Size(ps) <= MAX_ALLOC && RoomFor(d, ps, ms) && Picked(ps, |ps|, keep, ms)
    ensures Is(out, ms) && Picks(ms, ps, keep)
  {
    assert ps[..|ps|] == ps;
    out := Finalize(d, ms);
  }

  /** hstore_delete: drops one key. */
  method Delete(hs: HStore, key: Bytes, ghost ps: seq<Pair>) returns (out: HStore, ghost ms: seq<Pair>)
    requires Is(hs, ps)
    ensures Is(out, ms) && Picks(ms, ps, OtherKey(key))
  {
    ghost var keep := OtherKey(key);
    var d := StartCopy(hs, ps, keep);
    ms := [];
    for i := 0 to Count(hs)
      invariant RoomFor(d, ps, ms) && Picked(ps, i, keep, ms)
    {
      var k := GetKey(hs, i, ps);
      d, ms := CopyNext(d, hs, i, k != key, ps, keep, ms);
    }
    out := FinishCopy(d, ps, keep, ms);
  }

  ghost predicate SameKeys(ks: seq<Pair>, qs: seq<Pair>) {
    forall k :: HasKey(ks, k) <==> HasKey(qs, k)
  }

  /** The elements of a text array that are not null, as keys. */
  function NonNull(elems: seq<Option<Bytes>>, n: nat): seq<Pair>
    requires n <= |elems|
  {
    if n == 0 then []
    else NonNull(elems, n - 1) + if elems[n - 1].Some? then [Pair(elems[n - 1].value, None)] else []
  }

  method CollectKeys(elems: seq<Option<Bytes>>) returns (pairs: seq<Pair>)
    ensures pairs == NonNull(elems, |elems|)
  {
    pairs := [];
    for i := 0 to |elems|
      invariant pairs == NonNull(elems, i)
    {
      if elems[i].Some? {
        pairs := pairs + [Pair(elems[i].value, None)];
      }
    }
  }

  lemma {:induction false} NonNullKeys(elems: seq<Option<Bytes>>, n: nat, key: Bytes)
    requires n <= |elems|
    ensures HasKey(NonNull(elems, n), key) <==> Some(key) in elems[..n]
  {
    if n > 0 {
      NonNullKeys(elems, n - 1, key);
      assert elems[..n] == elems[..n - 1] + [elems[n - 1]];
      var before := NonNull(elems, n - 1);
      if elems[n - 1].Some? {
        HasKeyAppend(before, Pair(elems[n - 1].value, None), key);
      } else {
        assert before + [] == before;
      }
    }
  }

  lemma HasKeyAppend(s: seq<Pair>, p: Pair, key: Bytes)
    ensures HasKey(s + [p], key) <==> HasKey(s, key) || p.key == key
  {
    if HasKey(s, key) {
      var i :| 0 <= i < |s| && s[i].key == key;
      assert (s + [p])[i].key == key;
    }
    if p.key == key { assert (s + [p])[|s|].key == key; }
  }

  lemma HasKeySorted(s: seq<Pair>, t: seq<Pair>, key: Bytes)
    requires IsSortOf(t, s)
    ensures HasKey(t, key) <==> HasKey(s, key)
  {
    forall p ensures p in t <==> p in s { assert p in multiset(t) <==> p in multiset(s); }
    if HasKey(t, key) {
      var i :| 0 <= i < |t| && t[i].key == key;
      assert t[i] in s;
    }
    if HasKey(s, key) {
      var i :| 0 <= i < |s| && s[i].key == key;
      assert s[i] in t;
    }
  }

  /** The keys of a list are the elements of an array. */
  ghost predicate KeysOf(keys: seq<Pair>, elems: seq<Option<Bytes>>) {
    forall k :: HasKey(keys, k) <==> Some(k) in elems
  }

  /** The longest array of pairs that can be allocated at once. */
  const MAX_KEYS: nat := MAX_ALLOC / PAIR_SIZE

  /**
   hstoreArrayToPairs: the keys of an array, nulls left out, each once; an error for more elements than
   pairs can be allocated. `sorted` is what the library sort leaves of the keys.
   */
  method ArrayKeys(elems: seq<Option<Bytes>>, sorted: seq<Pair>) returns (r: Option<seq<Pair>>)
    requires IsSortOf(sorted, NonNull(elems, |elems|))
    ensures r.Some? <==> |elems| <= MAX_KEYS
    ensures r.Some? ==> Sorted(r.value) && KeysOf(r.value, elems)
  {
    if |elems| > MAX_KEYS {
      return None;
    }
    var pairs := CollectKeys(elems);
    var keys := UniqueKeys(pairs, sorted);
    r := Some(keys);
    assert elems[..|elems|] == elems;
    forall k ensures HasKey(keys, k) <==> Some(k) in elems {
      HasKeySorted(NonNull(elems, |elems|), sorted, k);
      NonNullKeys(elems, |elems|, k);
    }
  }

  lemma SameLength(s: seq<Pair>, t: seq<Pair>)
    requires IsSortOf(t, s)
    ensures |s| == |t|
  {
    assert |multiset(s)| == |multiset(t)|;
  }

  /** hstoreUniquePairs on `pairs`, which the library sort leaves as `sorted`. */
  method UniqueKeys(pairs: seq<Pair>, sorted: seq<Pair>) returns (keys: seq<Pair>)
    requires IsSortOf(sorted, pairs)
    ensures Sorted(keys) && SameKeys(keys, sorted)
  {
    SameLength(pairs, sorted);
    var a := new Pair[|pairs|](i requires 0 <= i < |pairs| => sorted[i]);
    assert a[..] == sorted;
    var n, _ := UniquePairs(a);
    keys := a[..n];
    DedupMeans(sorted);
    forall k ensures HasKey(keys, k) <==> HasKey(sorted, k) { DedupKeys(sorted, k); }
  }

  lemma KeyAt(ks: seq<Pair>, j: nat, key: Bytes)
    requires Sorted(ks) && Past(ks, j, key)
    requires j < |ks| ==> KeyLe(key, ks[j].key)
    ensures HasKey(ks, key) <==> j < |ks| && ks[j].key == key
  {
    if HasKey(ks, key) {
      var i :| 0 <= i < |ks| && ks[i].key == key;
      if j < i {
        KeyLtTransitive(key, ks[j].key, ks[i].key);
      }
    }
  }

  /** hstore_delete_array, on what the library sort leaves of the keys. */
  method DeleteArray(hs: HStore, elems: seq<Option<Bytes>>, sorted: seq<Pair>, ghost ps: seq<Pair>)
    returns (r: Option<HStore>, ghost ms: seq<Pair>)
    requires Is(hs, ps) && IsSortOf(sorted, NonNull(elems, |elems|))
    ensures r.Some? <==> |elems| <= MAX_KEYS
    ensures r.Some? ==> Is(r.value, ms) && Picks(ms, ps, NotListed(elems))
  {
    var keys := ArrayKeys(elems, sorted);
    if keys.None? {
      return None, [];
    }
    var out;
    out, ms := DeleteKeys(hs, keys.value, ps);
    assert forall p: Pair :: KeyNotIn(keys.value)(p) == NotListed(elems)(p);
    r := Some(out);
  }

  ghost function NotListed(elems: seq<Option<Bytes>>): Pair -> bool { (p: Pair) => Some(p.key) !in elems }

  /** Where the merge with a sorted list is. */
  ghost predicate Position(ps: seq<Pair>, ks: seq<Pair>, i: int, j: int) {
    0 <= i <= |ps| && 0 <= j <= |ks| && (i < |ps| ==> Past(ks, j, ps[i].key))
  }

  /** The merge with the sorted keys. */
  method DeleteKeys(hs: HStore, keys: seq<Pair>, ghost ps: seq<Pair>) returns (out: HStore, ghost ms: seq<Pair>)
    requires Is(hs, ps) && Sorted(keys)
    ensures Is(out, ms) && Picks(ms, ps, KeyNotIn(keys))
  {
    ghost var keep := KeyNotIn(keys);
    var d := StartCopy(hs, ps, keep);
    ms := [];
    var i, j := 0, 0;
    while i < Count(hs)
      invariant RoomFor(d, ps, ms) && Picked(ps, i, keep, ms)
      invariant Position(ps, keys, i, j)
      decreases |ps| - i + |keys| - j
    {
      var decided, wanted;
      decided, wanted, j := MatchKey(hs, keys, i, j, ps);
      if decided {
        d, ms := CopyNext(d, hs, i, wanted, ps, keep, ms);
        i := i + 1;
      }
    }
    out := FinishCopy(d, ps, keep, ms);
  }

  /** One comparison of the merge: decides on pair `i` or goes on to the next key. */
  method MatchKey(hs: HStore, keys: seq<Pair>, i: nat, j: nat, ghost ps: seq<Pair>)
    returns (decided: bool, wanted: bool, j': nat)
    requires Is(hs, ps) && Sorted(keys) && i < |ps| && Position(ps, keys, i, j)
    ensures if decided then Position(ps, keys, i + 1, j') && j' >= j else Position(ps, keys, i, j') && j' > j
    ensures decided ==> wanted == !HasKey(keys, ps[i].key)
  {
    var difference := OrderOf(hs, keys, i, j, ps);
    MatchDecides(ps, keys, i, j, difference);
    if difference > 0 {
      return false, false, j + 1;
    }
    j' := if difference == 0 then j + 1 else j;
    decided, wanted := true, difference != 0;
  }

  /** The comparison `c` of pair `i` with key `j` as OrderOf makes it. */
  ghost predicate Compared(ps: seq<Pair>, keys: seq<Pair>, i: nat, j: nat, c: int)
    requires i < |ps|
  {
    if j >= |keys| then c < 0
    else (c == 0 <==> ps[i].key == keys[j].key) && (c < 0 <==> KeyLt(ps[i].key, keys[j].key)) &&
         (c > 0 <==> KeyLt(keys[j].key, ps[i].key))
  }

  lemma MatchDecides(ps: seq<Pair>, keys: seq<Pair>, i: nat, j: nat, c: int)
    requires Sorted(ps) && Sorted(keys) && i < |ps| && Position(ps, keys, i, j) && Compared(ps, keys, i, j, c)
    ensures c > 0 ==> Position(ps, keys, i, j + 1)
    ensures c <= 0 ==> Position(ps, keys, i + 1, if c == 0 then j + 1 else j) && (HasKey(keys, ps[i].key) <==> c == 0)
  {
    if c <= 0 {
      KeyAt(keys, j, ps[i].key);
      NextKey(keys, if c == 0 then j + 1 else j, ps, i);
    }
  }

  /** How key `i` compares with the current key to delete; when there is none left, it comes first. */
  method OrderOf(hs: HStore, keys: seq<Pair>, i: nat, j: nat, ghost ps: seq<Pair>) returns (c: int)
    requires hs == Layout(ps) && i < |ps| && j <= |keys|
    ensures if j < |keys| then c == 0 <==> ps[i].key == keys[j].key else c < 0
    ensures j < |keys| ==> (c < 0 <==> KeyLt(ps[i].key, keys[j].key)) && (c > 0 <==> KeyLt(keys[j].key, ps[i].key))
  {
    c := -1;
    if j < |keys| {
      var key := GetKey(hs, i, ps);
      c := KeyCompare(key, keys[j].key);
    }
  }

  lemma NextKey(ks: seq<Pair>, j: nat, ps: seq<Pair>, i: nat)
    requires Sorted(ps) && i < |ps| && j <= |ks| && forall k :: 0 <= k < j ==> KeyLe(ks[k].key, ps[i].key)
    ensures i + 1 < |ps| ==> Past(ks, j, ps[i + 1].key)
  {
    if i + 1 < |ps| { PastLater(ks, j, ps[i].key, ps[i + 1].key); }
  }

  /** hstore_delete_hstore: drops the pairs that are in the other hstore with the same value. */
  method DeleteHstore(hs: HStore, hs2: HStore, ghost ps: seq<Pair>, ghost qs: seq<Pair>)
    returns (out: HStore, ghost ms: seq<Pair>)
    requires Is(hs, ps) && Is(hs2, qs)
    ensures Is(out, ms) && Picks(ms, ps, NotIn(qs))
  {
    ghost var keep := NotIn(qs);
    var d := StartCopy(hs, ps, keep);
    ms := [];
    var i, j := 0, 0;
    while i < Count(hs)
      invariant RoomFor(d, ps, ms) && Picked(ps, i, keep, ms)
      invariant Position(ps, qs, i, j)
      decreases |ps| - i + |qs| - j
    {
      var decided, wanted;
      decided, wanted, j := MatchPair(hs, hs2, i, j, ps, qs);
      if decided {
        d, ms := CopyNext(d, hs, i, wanted, ps, keep, ms);
        i := i + 1;
      }
    }
    out := FinishCopy(d, ps, keep, ms);
  }

  method MatchPair(hs: HStore, hs2: HStore, i: nat, j: nat, ghost ps: seq<Pair>, ghost qs: seq<Pair>)
    returns (decided: bool, wanted: bool, j': nat)
    requires Is(hs, ps) && Is(hs2, qs) && i < |ps| && Position(ps, qs, i, j)
    ensures if decided then Position(ps, qs, i + 1, j') && j' >= j else Position(ps, qs, i, j') && j' > j
    ensures decided ==> wanted == (ps[i] !in qs)
  {
    var difference := ItemOrder(hs, hs2, i, j, ps, qs);
    var same := false;
    if difference == 0 {
      same := SameValue(hs, hs2, i, j, ps, qs);
    }
    MatchMeans(ps, qs, i, j, difference, same);
    decided, wanted := difference <= 0, !same;
    j' := if difference >= 0 then j + 1 else j;
  }

  lemma MatchMeans(ps: seq<Pair>, qs: seq<Pair>, i: nat, j: nat, c: int, same: bool)
    requires Sorted(ps) && Sorted(qs) && i < |ps| && Position(ps, qs, i, j)
    requires c < 0 <==> (j < |qs| ==> KeyLt(ps[i].key, qs[j].key))
    requires c == 0 <==> j < |qs| && ps[i].key == qs[j].key
    requires same <==> c == 0 && ps[i].val == qs[j].val
    ensures c > 0 ==> Position(ps, qs, i, j + 1)
    ensures c <= 0 ==> Position(ps, qs, i + 1, if c == 0 then j + 1 else j)
    ensures c <= 0 ==> (same <==> ps[i] in qs)
  {
    if c > 0 {
      KeyOrder(ps[i].key, qs[j].key);
    } else {
      if c == 0 { KeyOrder(ps[i].key, ps[i].key); }
      PairAt(qs, j, ps[i]);
      NextKey(qs, if c == 0 then j + 1 else j, ps, i);
    }
  }

  lemma PairAt(qs: seq<Pair>, j: nat, p: Pair)
    requires Sorted(qs) && Past(qs, j, p.key)
    requires j < |qs| ==> KeyLe(p.key, qs[j].key)
    ensures p in qs <==> j < |qs| && qs[j] == p
  {
    KeyAt(qs, j, p.key);
    if p in qs {
      var i :| 0 <= i < |qs| && qs[i] == p;
      assert HasKey(qs, p.key);
      SameKeySamePair(qs, j, p);
    }
  }

  /** hstore_slice_to_hstore, on what the library sort leaves of the keys. */
  method SliceToHstore(hs: HStore, elems: seq<Option<Bytes>>, sorted: seq<Pair>, ghost ps: seq<Pair>)
    returns (r: Option<HStore>, ghost ms: seq<Pair>)
    requires Is(hs, ps) && IsSortOf(sorted, NonNull(elems, |elems|))
    ensures r.Some? <==> |elems| <= MAX_KEYS && Size(ms) <= MAX_ALLOC
    ensures |elems| <= MAX_KEYS ==> Sorted(ms) && forall p :: p in ms <==> p in ps && Some(p.key) in elems
    ensures r.Some? ==> Is(r.value, ms)
  {
    var keys := ArrayKeys(elems, sorted);
    if keys.None? {
      return None, [];
    }
    var pairs, bufsiz := Slice(hs, keys.value, ps);
    r := HstoreOfPairs(pairs, bufsiz);
    ms := pairs;
  }

  /** The first `i` keys are looked up, and the next one can be searched from `low` on. */
  ghost predicate Sliced(ps: seq<Pair>, keys: seq<Pair>, i: int, low: int, pairs: seq<Pair>) {
    && 0 <= i <= |keys| && Sorted(pairs) && SliceOf(ps, keys[..i], pairs)
    && (i < |keys| ==> Past(ps, low, keys[i].key))
    && (i < |keys| && pairs != [] ==> KeyLt(pairs[|pairs| - 1].key, keys[i].key))
  }

  lemma SliceNext(ps: seq<Pair>, keys: seq<Pair>, i: nat, idx: int, low: nat, pairs: seq<Pair>, last: nat)
    requires Sorted(ps) && Sorted(keys) && i < |keys| && Sliced(ps, keys, i, last, pairs)
    requires if idx >= 0 then idx < |ps| && ps[idx].key == keys[i].key else !HasKey(ps, keys[i].key)
    requires low <= |ps| && forall k :: 0 <= k < low ==> KeyLe(ps[k].key, keys[i].key)
    ensures Sliced(ps, keys, i + 1, low, if idx >= 0 then pairs + [ps[idx]] else pairs)
  {
    SliceStep(ps, keys, i, idx, pairs);
    if i + 1 < |keys| { PastLater(ps, low, keys[i].key, keys[i + 1].key); }
    if idx >= 0 {
      AppendSorted(pairs, ps[idx]);
    } else if i + 1 < |keys| && pairs != [] {
      KeyLtTransitive(pairs[|pairs| - 1].key, keys[i].key, keys[i + 1].key);
    }
  }

  /** Looks up one key after another; each search starts where the last one ended. */
  method Slice(hs: HStore, keys: seq<Pair>, ghost ps: seq<Pair>) returns (pairs: seq<Pair>, bufsiz: nat)
    requires Is(hs, ps) && Sorted(keys)
    ensures Sorted(pairs) && SliceOf(ps, keys, pairs) && bufsiz == TotalLen(pairs)
  {
    pairs, bufsiz := [], 0;
    var lastidx := 0;
    for i := 0 to |keys|
      invariant Sliced(ps, keys, i, lastidx, pairs) && bufsiz == TotalLen(pairs)
    {
      var idx, low := FindKey(hs, lastidx, keys[i].key, ps);
      SliceNext(ps, keys, i, idx, low, pairs, lastidx);
      if idx >= 0 {
        var val := GetVal(hs, idx, ps);
        var p := Pair(keys[i].key, val);
        TotalMore(pairs, p);
        pairs, bufsiz := pairs + [p], bufsiz + ItemLen(p);
      }
      lastidx := low;
    }
    assert keys[..|keys|] == keys;
  }

  ghost predicate SliceOf(ps: seq<Pair>, keys: seq<Pair>, pairs: seq<Pair>) {
    forall p :: p in pairs <==> p in ps && HasKey(keys, p.key)
  }

  lemma SliceStep(ps: seq<Pair>, keys: seq<Pair>, i: nat, idx: int, pairs: seq<Pair>)
    requires Sorted(ps) && i < |keys| && SliceOf(ps, keys[..i], pairs)
    requires if idx >= 0 then idx < |ps| && ps[idx].key == keys[i].key else !HasKey(ps, keys[i].key)
    ensures SliceOf(ps, keys[..i + 1], if idx >= 0 then pairs + [ps[idx]] else pairs)
  {
    var more := if idx >= 0 then pairs + [ps[idx]] else pairs;
    forall p ensures p in more <==> p in ps && HasKey(keys[..i + 1], p.key) {
      HasKeyMore(keys, i, p.key);
      if p in ps && p.key == keys[i].key {
        var k :| 0 <= k < |ps| && ps[k] == p;
        assert HasKey(ps, keys[i].key);
        SameKeySamePair(ps, idx, p);
      }
    }
  }

  lemma HasKeyMore(ks: seq<Pair>, i: nat, key: Bytes)
    requires i < |ks|
    ensures HasKey(ks[..i + 1], key) <==> HasKey(ks[..i], key) || ks[i].key == key
  {
    if HasKey(ks[..i], key) {
      var k :| 0 <= k < i && ks[..i][k].key == key;
      assert ks[..i + 1][k].key == key;
    }
    if ks[i].key == key { assert ks[..i + 1][i].key == key; }
    if HasKey(ks[..i + 1], key) {
      var k :| 0 <= k < i + 1 && ks[..i + 1][k].key == key;
      assert k < i ==> ks[..i][k].key == key;
    }
  }

  // Concatenation

  /** The pairs of the second list, and those of the first whose keys it does not have. */
  ghost predicate Overrides(a: seq<Pair>, b: seq<Pair>, p: Pair) {
    p in b || (p in a && !HasKey(b, p.key))
  }

  /** `ms` is the map override of `a` by `b`. */
  ghost predicate IsConcat(a: seq<Pair>, b: seq<Pair>, ms: seq<Pair>) {
    Sorted(ms) && forall p :: p in ms <==> Overrides(a, b, p)
  }

  lemma NoKeyBefore(b: seq<Pair>, j: nat, key: Bytes)
    requires Past(b, j, key)
    ensures !HasKey(b[..j], key)
  {
  }

  lemma ConcatFirst(ps: seq<Pair>, qs: seq<Pair>, i: nat, j: nat, p: Pair)
    requires i < |ps| && Past(qs, j, ps[i].key)
    ensures Overrides(ps[..i + 1], qs[..j], p) <==> Overrides(ps[..i], qs[..j], p) || p == ps[i]
  {
    assert ps[..i + 1] == ps[..i] + [ps[i]];
    NoKeyBefore(qs, j, ps[i].key);
  }

  lemma ConcatSecond(ps: seq<Pair>, qs: seq<Pair>, i: nat, j: nat, p: Pair)
    requires j < |qs| && Past(ps, i, qs[j].key)
    ensures Overrides(ps[..i], qs[..j + 1], p) <==> Overrides(ps[..i], qs[..j], p) || p == qs[j]
  {
    assert qs[..j + 1] == qs[..j] + [qs[j]];
    HasKeyMore(qs, j, p.key);
    NoKeyBefore(ps, i, qs[j].key);
    if p in ps[..i] { assert HasKey(ps[..i], p.key); }
  }

  lemma ConcatBoth(ps: seq<Pair>, qs: seq<Pair>, i: nat, j: nat, p: Pair)
    requires i < |ps| && j < |qs| && ps[i].key == qs[j].key
    ensures Overrides(ps[..i + 1], qs[..j + 1], p) <==> Overrides(ps[..i], qs[..j + 1], p)
  {
    assert ps[..i + 1] == ps[..i] + [ps[i]];
    HasKeyMore(qs, j, p.key);
  }

  /** The first `i` and `j` pairs are merged into `out`, and all further keys come later. */
  ghost predicate Merged(ps: seq<Pair>, qs: seq<Pair>, i: int, j: int, out: seq<Pair>) {
    && 0 <= i <= |ps| && 0 <= j <= |qs| && IsConcat(ps[..i], qs[..j], out)
    && (i < |ps| ==> Past(qs, j, ps[i].key)) && (j < |qs| ==> Past(ps, i, qs[j].key))
    && |out| <= i + j && TotalLen(out) <= Sum(ps, i) + Sum(qs, j)
  }

  lemma LastBefore(ps: seq<Pair>, qs: seq<Pair>, i: int, j: int, out: seq<Pair>, key: Bytes)
    requires Past(ps, i, key) && Past(qs, j, key) && IsConcat(ps[..i], qs[..j], out)
    ensures out != [] ==> KeyLt(out[|out| - 1].key, key)
  {
    if out != [] {
      var p := out[|out| - 1];
      assert p in out;
      assert Overrides(ps[..i], qs[..j], p);
    }
  }

  /** All keys before `i` come before key `i`. */
  lemma PastSelf(ps: seq<Pair>, i: nat)
    requires Sorted(ps) && i < |ps|
    ensures Past(ps, i, ps[i].key)
  {
  }

  lemma MergeFirst(ps: seq<Pair>, qs: seq<Pair>, i: nat, j: nat, out: seq<Pair>)
    requires Sorted(ps) && Sorted(qs) && Merged(ps, qs, i, j, out)
    requires i < |ps| && (j < |qs| ==> KeyLt(ps[i].key, qs[j].key))
    ensures Merged(ps, qs, i + 1, j, out + [ps[i]])
  {
    PastSelf(ps, i);
    LastBefore(ps, qs, i, j, out, ps[i].key);
    AppendSorted(out, ps[i]);
    forall p ensures p in out + [ps[i]] <==> Overrides(ps[..i + 1], qs[..j], p) { ConcatFirst(ps, qs, i, j, p); }
    if j < |qs| { UpTo(ps, i, qs[j].key); }
    if i + 1 < |ps| { PastLater(qs, j, ps[i].key, ps[i + 1].key); }
    SumUpTo(ps, i + 1, |ps|);
    TotalMore(out, ps[i]);
  }

  lemma MergeSecond(ps: seq<Pair>, qs: seq<Pair>, i: nat, j: nat, out: seq<Pair>)
    requires Sorted(ps) && Sorted(qs) && Merged(ps, qs, i, j, out)
    requires j < |qs| && (i < |ps| ==> KeyLt(qs[j].key, ps[i].key))
    ensures Merged(ps, qs, i, j + 1, out + [qs[j]])
  {
    PastSelf(qs, j);
    LastBefore(ps, qs, i, j, out, qs[j].key);
    AppendSorted(out, qs[j]);
    forall p ensures p in out + [qs[j]] <==> Overrides(ps[..i], qs[..j + 1], p) { ConcatSecond(ps, qs, i, j, p); }
    if i < |ps| { UpTo(qs, j, ps[i].key); }
    if j + 1 < |qs| { PastLater(ps, i, qs[j].key, qs[j + 1].key); }
    SumUpTo(qs, j + 1, |qs|);
    TotalMore(out, qs[j]);
  }

  lemma MergeBoth(ps: seq<Pair>, qs: seq<Pair>, i: nat, j: nat, out: seq<Pair>)
    requires Sorted(ps) && Sorted(qs) && Merged(ps, qs, i, j, out)
    requires i < |ps| && j < |qs| && ps[i].key == qs[j].key
    ensures Merged(ps, qs, i + 1, j + 1, out + [qs[j]])
  {
    LastBefore(ps, qs, i, j, out, qs[j].key);
    AppendSorted(out, qs[j]);
    forall p ensures p in out + [qs[j]] <==> Overrides(ps[..i + 1], qs[..j + 1], p) {
      ConcatSecond(ps, qs, i, j, p);
      ConcatBoth(ps, qs, i, j, p);
    }
    if i + 1 < |ps| { UpTo(qs, j, ps[i + 1].key); }
    if j + 1 < |qs| { UpTo(ps, i, qs[j + 1].key); }
    SumUpTo(ps, i + 1, |ps|);
    SumUpTo(qs, j + 1, |qs|);
    TotalMore(out, qs[j]);
  }

  /** The hstore under construction holds `out` and has room for both lists. */
  ghost predicate RoomForBoth(d: Dest, ps: seq<Pair>, qs: seq<Pair>, out: seq<Pair>) {
    Holds(d, out) && d.maxItems == |ps| + |qs| && d.maxBytes == TotalLen(ps) + TotalLen(qs)
  }

  lemma RoomForNext(d: Dest, ps: seq<Pair>, qs: seq<Pair>, i: nat, j: nat, out: seq<Pair>)
    requires RoomForBoth(d, ps, qs, out) && Merged(ps, qs, i, j, out)
    ensures i < |ps| ==> Room(d, out, ps[i])
    ensures j < |qs| ==> Room(d, out, qs[j])
  {
    SumUpTo(ps, i, |ps|);
    SumUpTo(qs, j, |qs|);
    if i < |ps| { SumUpTo(ps, i + 1, |ps|); }
    if j < |qs| { SumUpTo(qs, j + 1, |qs|); }
  }

  /** Merging on: the next item is `ps[i]` or `qs[j]`, as their order says. */
  lemma MergedNext(ps: seq<Pair>, qs: seq<Pair>, i: nat, j: nat, out: seq<Pair>, c: int)
    requires Sorted(ps) && Sorted(qs) && Merged(ps, qs, i, j, out) && (i < |ps| || j < |qs|)
    requires c < 0 <==> i < |ps| && (j < |qs| ==> KeyLt(ps[i].key, qs[j].key))
    requires c == 0 <==> i < |ps| && j < |qs| && ps[i].key == qs[j].key
    ensures c < 0 ==> i < |ps| && Merged(ps, qs, i + 1, j, out + [ps[i]])
    ensures c >= 0 ==> j < |qs| && Merged(ps, qs, if c == 0 then i + 1 else i, j + 1, out + [qs[j]])
  {
    if c < 0 {
      MergeFirst(ps, qs, i, j, out);
    } else if c == 0 {
      MergeBoth(ps, qs, i, j, out);
    } else {
      if i < |ps| { KeyOrder(ps[i].key, qs[j].key); }
      MergeSecond(ps, qs, i, j, out);
    }
  }

  /** One round of the merge loop. */
  method TakeNext(d: Dest, s1: HStore, s2: HStore, i: nat, j: nat, ghost ps: seq<Pair>, ghost qs: seq<Pair>,
                  ghost ms: seq<Pair>)
    returns (e: Dest, i': nat, j': nat, ghost ms': seq<Pair>)
    requires Is(s1, ps) && Is(s2, qs) && (i < |ps| || j < |qs|)
    requires RoomForBoth(d, ps, qs, ms) && Merged(ps, qs, i, j, ms)
    ensures RoomForBoth(e, ps, qs, ms') && Merged(ps, qs, i', j', ms') && i' + j' > i + j
  {
    var difference := ItemOrder(s1, s2, i, j, ps, qs);
    RoomForNext(d, ps, qs, i, j, ms);
    MergedNext(ps, qs, i, j, ms, difference);
    if difference >= 0 {
      e := CopyPair(d, s2, j, qs, ms);
      ms' := ms + [qs[j]];
      i', j' := if difference == 0 then i + 1 else i, j + 1;
    } else {
      e := CopyPair(d, s1, i, ps, ms);
      ms' := ms + [ps[i]];
      i', j' := i + 1, j;
    }
  }

  method MergeAll(s1: HStore, s2: HStore, ghost ps: seq<Pair>, ghost qs: seq<Pair>) returns (h: HStore, ghost ms: seq<Pair>)
    requires Is(s1, ps) && Is(s2, qs) && Size(ps) + Size(qs) <= MAX_ALLOC
    ensures Is(h, ms) && IsConcat(ps, qs, ms)
  {
    var d := Dest([], [], Count(s1) + Count(s2), |s1.str| + |s2.str|);
    MergeStart(d, s1, s2, ps, qs);
    ms := [];
    var i, j := 0, 0;
    while i < Count(s1) || j < Count(s2)
      invariant RoomForBoth(d, ps, qs, ms) && Merged(ps, qs, i, j, ms)
      decreases |ps| - i + |qs| - j
    {
      d, i, j, ms := TakeNext(d, s1, s2, i, j, ps, qs, ms);
    }
    MergedAll(d, ps, qs, ms);
    h := Finalize(d, ms);
  }

  lemma MergeStart(d: Dest, s1: HStore, s2: HStore, ps: seq<Pair>, qs: seq<Pair>)
    requires Is(s1, ps) && Is(s2, qs) && Size(ps) + Size(qs) <= MAX_ALLOC
    requires d == Dest([], [], Count(s1) + Count(s2), |s1.str| + |s2.str|)
    ensures Count(s1) == |ps| && Count(s2) == |qs| && RoomForBoth(d, ps, qs, []) && Merged(ps, qs, 0, 0, [])
  {
  }

  lemma MergedAll(d: Dest, ps: seq<Pair>, qs: seq<Pair>, ms: seq<Pair>)
    requires RoomForBoth(d, ps, qs, ms) && Merged(ps, qs, |ps|, |qs|, ms) && Size(ps) + Size(qs) <= MAX_ALLOC
    ensures IsConcat(ps, qs, ms) && Sorted(ms) && Size(ms) <= MAX_ALLOC
  {
    assert ps[..|ps|] == ps && qs[..|qs|] == qs;
  }

  /** hstore_concat; it fails only when the two together exceed the allocation limit. */
  method Concat(s1: HStore, s2: HStore, ghost ps: seq<Pair>, ghost qs: seq<Pair>)
    returns (r: Option<HStore>, ghost ms: seq<Pair>)
    requires Is(s1, ps) && Is(s2, qs)
    ensures r.None? <==> Size(ps) + Size(qs) > MAX_ALLOC
    ensures r.Some? ==> Is(r.value, ms) && IsConcat(ps, qs, ms)
  {
    var n1 := SizeOf(s1, ps);
    var n2 := SizeOf(s2, qs);
    if n1 + n2 > MAX_ALLOC {
      return None, [];
    }
    if Count(s1) == 0 {
      return Some(s2), qs;
    }
    if Count(s2) == 0 {
      return Some(s1), ps;
    }
    var h;
    h, ms := MergeAll(s1, s2, ps, qs);
    r := Some(h);
  }

  // Laws

  lemma ConcatHasKey(a: seq<Pair>, b: seq<Pair>, ab: seq<Pair>, key: Bytes)
    requires IsConcat(a, b, ab)
    ensures HasKey(ab, key) <==> HasKey(a, key) || HasKey(b, key)
  {
    if HasKey(ab, key) {
      var k :| 0 <= k < |ab| && ab[k].key == key;
      assert ab[k] in ab;
      assert Overrides(a, b, ab[k]);
    }
    if HasKey(b, key) {
      var k :| 0 <= k < |b| && b[k].key == key;
      assert b[k] in ab;
    } else if HasKey(a, key) {
      var k :| 0 <= k < |a| && a[k].key == key;
      assert a[k] in ab;
    }
  }

  /** Concatenation is associative, down to the bytes of the result. */
  lemma ConcatAssociative(a: seq<Pair>, b: seq<Pair>, c: seq<Pair>, ab: seq<Pair>, bc: seq<Pair>, l: seq<Pair>, r: seq<Pair>)
    requires IsConcat(a, b, ab) && IsConcat(b, c, bc) && IsConcat(ab, c, l) && IsConcat(a, bc, r)
    ensures Layout(l) == Layout(r)
  {
    forall p ensures p in l <==> p in r { ConcatHasKey(b, c, bc, p.key); }
    SortedUnique(l, r);
  }

  ghost predicate ShareNoKey(a: seq<Pair>, b: seq<Pair>) {
    forall i :: 0 <= i < |a| ==> !HasKey(b, a[i].key)
  }

  /** Deleting the keys of `b` undoes the concatenation with `b` exactly when the two shared no key. */
  lemma DeleteUndoesConcatIff(a: seq<Pair>, b: seq<Pair>, ab: seq<Pair>, d: seq<Pair>)
    requires Sorted(a) && IsConcat(a, b, ab) && Picks(d, ab, KeyNotIn(b))
    ensures Layout(d) == Layout(a) <==> ShareNoKey(a, b)
  {
    assert forall p :: p in d <==> p in a && !HasKey(b, p.key) by {
      forall p | p in b ensures HasKey(b, p.key) {}
    }
    if ShareNoKey(a, b) {
      SortedUnique(d, a);
    } else {
      var i :| 0 <= i < |a| && HasKey(b, a[i].key);
      assert a[i] in a && a[i] !in d;
      if Layout(d) == Layout(a) { LayoutInjective(d, a); }
    }
  }
}
