/**
 The packed form of an hstore (contrib/hstore/hstore.h): two entries for every pair, each holding the
 end position of its string, and one buffer with all strings.
 */
module Hstore {
  import opened Lexicographic
  import opened Wrappers
  import opened Buffers

  /** `None` is the null value. */
  datatype Pair = Pair(key: Bytes, val: Option<Bytes>)

  /** sizeof(Pairs), where pointers have eight bytes. */
  const PAIR_SIZE: nat := 40

  datatype HEntry = HEntry(endpos: nat, isnull: bool, isfirst: bool)

  datatype HStore = HStore(entries: seq<HEntry>, str: Bytes)

  const POS_LIMIT: nat := 0x4000_0000

  // The order of keys

  /** Shorter keys first, then by bytes. */
  function Ranked(key: Bytes): seq<int> { [|key|] + key }

  ghost predicate KeyLe(a: Bytes, b: Bytes) { Le(Ranked(a), Ranked(b)) }

  ghost predicate KeyLt(a: Bytes, b: Bytes) { KeyLe(a, b) && a != b }

  lemma RankedEqual(a: Bytes, b: Bytes)
    ensures Ranked(a) == Ranked(b) <==> a == b
  {
    assert Ranked(a)[1..] == a && Ranked(b)[1..] == b;
  }

  lemma KeyOrder(a: Bytes, b: Bytes)
    ensures KeyLe(a, b) || KeyLe(b, a)
    ensures KeyLe(a, b) && KeyLe(b, a) ==> a == b
  {
    LeTotal(Ranked(a), Ranked(b));
    if KeyLe(a, b) && KeyLe(b, a) {
      LeAntisymmetric(Ranked(a), Ranked(b));
      RankedEqual(a, b);
    }
  }

  lemma KeyLtTransitive(a: Bytes, b: Bytes, c: Bytes)
    requires KeyLe(a, b) && KeyLe(b, c) && (a != b || b != c)
    ensures KeyLt(a, c)
  {
    LeTransitive(Ranked(a), Ranked(b), Ranked(c));
    if a == c { KeyOrder(a, b); }
  }

  /** The comparison every operator writes out: lengths first, memcmp for equal lengths. */
  method KeyCompare(a: Bytes, b: Bytes) returns (c: int)
    ensures (c < 0 <==> KeyLt(a, b)) && (c > 0 <==> KeyLt(b, a)) && (c == 0 <==> a == b)
  {
    var x, y := Ranked(a), Ranked(b);
    KeyOrder(a, b);
    if |a| == |b| {
      c := Compare(a, b);
      SameLengthOrder(a, b);
      if c == 0 { LeAntisymmetric(a, b); }
      LeTotal(a, b);
    } else {
      c := if |a| > |b| then 1 else -1;
      CommonIs(x, y, 0);
      CommonIs(y, x, 0);
    }
  }

  lemma SameLengthOrder(a: Bytes, b: Bytes)
    requires |a| == |b|
    ensures KeyLe(a, b) <==> Le(a, b)
    ensures KeyLe(b, a) <==> Le(b, a)
  {
    RankedCommon(a, b);
    RankedCommon(b, a);
  }

  lemma RankedCommon(a: Bytes, b: Bytes)
    requires |a| == |b|
    ensures Common(Ranked(a), Ranked(b)) == Common(a, b) + 1
  {
    var n := Common(a, b);
    assert Ranked(a)[..n + 1] == [|a|] + a[..n] == [|b|] + b[..n] == Ranked(b)[..n + 1];
    CommonIs(Ranked(a), Ranked(b), n + 1);
  }

  ghost predicate Sorted(ps: seq<Pair>) {
    forall i, j :: 0 <= i < j < |ps| ==> KeyLt(ps[i].key, ps[j].key)
  }

  // The layout

  function ValLen(p: Pair): nat { if p.val.Some? then |p.val.value| else 0 }

  /** The bytes of a pair: key and value, one behind the other. */
  function Flat(p: Pair): (b: Bytes)
    ensures |b| == |p.key| + ValLen(p)
  {
    p.key + if p.val.Some? then p.val.value else []
  }

  function ItemLen(p: Pair): nat { |p.key| + ValLen(p) }

  /** The length of the first `n` pairs. */
  function Sum(ps: seq<Pair>, n: nat): nat
    requires n <= |ps|
  {
    if n == 0 then 0 else Sum(ps, n - 1) + ItemLen(ps[n - 1])
  }

  /** The strings of the first `n` pairs, one behind the other. */
  function StrTo(ps: seq<Pair>, n: nat): (b: Bytes)
    requires n <= |ps|
    ensures |b| == Sum(ps, n)
  {
    if n == 0 then [] else StrTo(ps, n - 1) + Flat(ps[n - 1])
  }

  /** Their entries as HS_COPYITEM and HS_ADDITEM write them, before the first one is flagged. */
  function RawTo(ps: seq<Pair>, n: nat): (es: seq<HEntry>)
    requires n <= |ps|
    ensures |es| == 2 * n
  {
    if n == 0 then []
    else
      var p, before := ps[n - 1], Sum(ps, n - 1);
      RawTo(ps, n - 1) + [HEntry(before + |p.key|, false, false), HEntry(before + ItemLen(p), p.val.None?, false)]
  }

  function TotalLen(ps: seq<Pair>): nat { Sum(ps, |ps|) }

  function FlagFirst(es: seq<HEntry>): seq<HEntry> {
    if es == [] then es else es[0 := es[0].(isfirst := true)]
  }

  function Layout(ps: seq<Pair>): HStore { HStore(FlagFirst(RawTo(ps, |ps|)), StrTo(ps, |ps|)) }

  /** CALCDATASIZE. */
  function Size(ps: seq<Pair>): nat { 8 * |ps| + 8 + TotalLen(ps) }

  /** The value that `ps` denotes, in its one canonical form, within the allocation limit. */
  ghost predicate Is(h: HStore, ps: seq<Pair>) { Sorted(ps) && h == Layout(ps) && Size(ps) <= MAX_ALLOC }

  /** Only the first `n` pairs matter. */
  lemma {:induction false} FirstPairs(ps: seq<Pair>, qs: seq<Pair>, n: nat)
    requires n <= |ps| && n <= |qs| && forall i :: 0 <= i < n ==> ps[i] == qs[i]
    ensures Sum(ps, n) == Sum(qs, n) && StrTo(ps, n) == StrTo(qs, n) && RawTo(ps, n) == RawTo(qs, n)
  {
    if n > 0 { FirstPairs(ps, qs, n - 1); }
  }

  lemma TotalMore(d: seq<Pair>, p: Pair)
    ensures TotalLen(d + [p]) == TotalLen(d) + ItemLen(p)
  {
    FirstPairs(d, d + [p], |d|);
  }

  lemma {:induction false} SumUpTo(ps: seq<Pair>, n: nat, m: nat)
    requires n <= m <= |ps|
    ensures Sum(ps, n) <= Sum(ps, m)
  {
    if n < m { SumUpTo(ps, n, m - 1); }
  }

  lemma {:induction false} StrPrefix(ps: seq<Pair>, n: nat, m: nat)
    requires n <= m <= |ps|
    ensures Sum(ps, n) <= Sum(ps, m) && StrTo(ps, m)[..Sum(ps, n)] == StrTo(ps, n)
  {
    if n < m {
      StrPrefix(ps, n, m - 1);
      PrefixOfPrefix(StrTo(ps, m - 1), Flat(ps[m - 1]), Sum(ps, n));
    }
  }

  lemma PrefixOfPrefix(s: Bytes, t: Bytes, n: nat)
    requires n <= |s|
    ensures (s + t)[..n] == s[..n]
  {
  }

  lemma SliceOfPrefix(s: Bytes, t: Bytes, u: Bytes)
    requires |t| + |u| <= |s| && s[..|t| + |u|] == t + u
    ensures s[|t|..|t| + |u|] == u
  {
    assert s[|t|..|t| + |u|] == s[..|t| + |u|][|t|..] == (t + u)[|t|..];
  }

  lemma StrStep(ps: seq<Pair>, i: nat)
    requires i < |ps|
    ensures Sum(ps, i) + ItemLen(ps[i]) <= TotalLen(ps)
    ensures StrTo(ps, |ps|)[Sum(ps, i)..Sum(ps, i) + ItemLen(ps[i])] == Flat(ps[i])
  {
    StrPrefix(ps, i + 1, |ps|);
    SliceOfPrefix(StrTo(ps, |ps|), StrTo(ps, i), Flat(ps[i]));
  }

  lemma {:induction false} RawAt(ps: seq<Pair>, i: nat, n: nat)
    requires i < n <= |ps|
    ensures RawTo(ps, n)[2 * i] == HEntry(Sum(ps, i) + |ps[i].key|, false, false)
    ensures RawTo(ps, n)[2 * i + 1] == HEntry(Sum(ps, i) + ItemLen(ps[i]), ps[i].val.None?, false)
  {
    if i < n - 1 { RawAt(ps, i, n - 1); }
  }

  // Reading

  function Off(h: HStore, k: int): nat
    requires 0 <= k < |h.entries| && (h.entries[k].isfirst || k > 0)
  {
    if h.entries[k].isfirst then 0 else h.entries[k - 1].endpos
  }

  ghost predicate Readable(h: HStore, k: int) {
    && 0 <= k < |h.entries| && (h.entries[k].isfirst || k > 0)
    && Off(h, k) <= h.entries[k].endpos <= |h.str|
  }

  /** The string of entry `k`: keys at even, values at odd positions. */
  function StringAt(h: HStore, k: int): Bytes
    requires Readable(h, k)
  {
    h.str[Off(h, k)..h.entries[k].endpos]
  }

  function Count(h: HStore): nat { |h.entries| / 2 }

  function ValAt(h: HStore, i: int): Option<Bytes>
    requires Readable(h, 2 * i + 1)
  {
    if h.entries[2 * i + 1].isnull then None else Some(StringAt(h, 2 * i + 1))
  }

  lemma FlagFirstAt(es: seq<HEntry>, k: nat)
    requires k < |es|
    ensures FlagFirst(es)[k] == if k == 0 then es[0].(isfirst := true) else es[k]
  {
  }

  lemma PairEntries(ps: seq<Pair>, i: nat)
    requires i < |ps|
    ensures var es := Layout(ps).entries;
      && |es| == 2 * |ps|
      && es[2 * i] == HEntry(Sum(ps, i) + |ps[i].key|, false, i == 0)
      && es[2 * i + 1] == HEntry(Sum(ps, i) + ItemLen(ps[i]), ps[i].val.None?, false)
  {
    RawAt(ps, i, |ps|);
    FlagFirstAt(RawTo(ps, |ps|), 2 * i);
    FlagFirstAt(RawTo(ps, |ps|), 2 * i + 1);
  }

  lemma EntriesAt(ps: seq<Pair>, i: nat)
    requires i < |ps|
    ensures var h, n := Layout(ps), Sum(ps, i);
      && |h.entries| == 2 * |ps| && (h.entries[2 * i].isfirst || i > 0)
      && Off(h, 2 * i) == n && h.entries[2 * i].endpos == Off(h, 2 * i + 1) == n + |ps[i].key|
      && h.entries[2 * i + 1].endpos == n + ItemLen(ps[i]) <= |h.str|
      && h.entries[2 * i + 1].isnull == ps[i].val.None?
  {
    PairEntries(ps, i);
    if i > 0 { PairEntries(ps, i - 1); }
    SumUpTo(ps, i + 1, |ps|);
  }

  /** Reading a canonical value gives the pairs it was made from; key and value lie side by side. */
  lemma ReadBack(ps: seq<Pair>, i: nat)
    requires i < |ps|
    ensures var h := Layout(ps);
      && Count(h) == |ps|
      && Readable(h, 2 * i) && StringAt(h, 2 * i) == ps[i].key
      && Readable(h, 2 * i + 1) && |StringAt(h, 2 * i + 1)| == ValLen(ps[i]) && ValAt(h, i) == ps[i].val
      && Off(h, 2 * i + 1) == h.entries[2 * i].endpos
      && h.str[Off(h, 2 * i)..h.entries[2 * i + 1].endpos] == Flat(ps[i])
  {
    EntriesAt(ps, i);
    StrStep(ps, i);
    SliceParts(Layout(ps).str, Sum(ps, i), ps[i]);
  }

  lemma SliceParts(str: Bytes, n: nat, p: Pair)
    requires n + |Flat(p)| <= |str| && str[n..n + |Flat(p)|] == Flat(p)
    ensures str[n..n + |p.key|] == p.key
    ensures str[n + |p.key|..n + |Flat(p)|] == if p.val.Some? then p.val.value else []
  {
    var flat, m := Flat(p), |p.key|;
    assert str[n..n + m] == str[n..n + |flat|][..m] == flat[..m];
    assert str[n + m..n + |flat|] == str[n..n + |flat|][m..] == flat[m..];
  }

  /** HS_COUNT. */
  method CountOf(hs: HStore, ghost ps: seq<Pair>) returns (count: nat)
    requires hs == Layout(ps)
    ensures count == |ps|
  {
    count := Count(hs);
  }

  /** Reads key `i` (HSTORE_KEY, HSTORE_KEYLEN). */
  method GetKey(hs: HStore, i: nat, ghost ps: seq<Pair>) returns (key: Bytes)
    requires hs == Layout(ps) && i < |ps|
    ensures key == ps[i].key
  {
    ReadBack(ps, i);
    key := StringAt(hs, 2 * i);
  }

  /** Reads value `i` (HSTORE_VAL, HSTORE_VALLEN, HSTORE_VALISNULL). */
  method GetVal(hs: HStore, i: nat, ghost ps: seq<Pair>) returns (val: Option<Bytes>)
    requires hs == Layout(ps) && i < |ps|
    ensures val == ps[i].val
  {
    ReadBack(ps, i);
    val := ValAt(hs, i);
  }

  method GetPair(hs: HStore, i: nat, ghost ps: seq<Pair>) returns (p: Pair)
    requires hs == Layout(ps) && i < |ps|
    ensures p == ps[i]
  {
    var key := GetKey(hs, i, ps);
    var val := GetVal(hs, i, ps);
    p := Pair(key, val);
  }

  /** Equal layouts come from equal pairs. */
  lemma LayoutInjective(ps: seq<Pair>, qs: seq<Pair>)
    requires Layout(ps) == Layout(qs)
    ensures ps == qs
  {
    assert |ps| == |Layout(ps).entries| / 2 == |qs|;
    forall i | 0 <= i < |ps| ensures ps[i] == qs[i] {
      ReadBack(ps, i);
      ReadBack(qs, i);
    }
  }

  lemma LastIsMax(ps: seq<Pair>, p: Pair)
    requires Sorted(ps) && p in ps
    ensures p == ps[|ps| - 1] || KeyLt(p.key, ps[|ps| - 1].key)
  {
  }

  lemma SameLast(ps: seq<Pair>, qs: seq<Pair>)
    requires Sorted(ps) && Sorted(qs) && ps != [] && qs != [] && ps[|ps| - 1] in qs && qs[|qs| - 1] in ps
    ensures ps[|ps| - 1] == qs[|qs| - 1]
  {
    var x, y := ps[|ps| - 1], qs[|qs| - 1];
    LastIsMax(ps, y);
    LastIsMax(qs, x);
    KeyOrder(x.key, y.key);
  }

  lemma InInit(ps: seq<Pair>, p: Pair)
    requires Sorted(ps) && ps != []
    ensures p in ps[..|ps| - 1] <==> p in ps && p != ps[|ps| - 1]
  {
    assert ps == ps[..|ps| - 1] + [ps[|ps| - 1]];
  }

  /** Two sorted lists with the same pairs are the same list: a map has one canonical form. */
  lemma {:induction false} SortedUnique(ps: seq<Pair>, qs: seq<Pair>)
    requires Sorted(ps) && Sorted(qs) && forall p :: p in ps <==> p in qs
    ensures ps == qs
  {
    if ps != [] || qs != [] {
      var z := if ps != [] then ps[0] else qs[0];
      assert z in ps && z in qs;
      assert ps[|ps| - 1] in qs && qs[|qs| - 1] in ps;
      SameLast(ps, qs);
      var ps', qs' := ps[..|ps| - 1], qs[..|qs| - 1];
      forall p ensures p in ps' <==> p in qs' {
        InInit(ps, p);
        InInit(qs, p);
      }
      SortedUnique(ps', qs');
      assert ps == ps' + [ps[|ps| - 1]] && qs == qs' + [qs[|qs| - 1]];
    }
  }
}
