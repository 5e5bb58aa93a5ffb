/** The btree order of hstores (contrib/hstore/hstore_op.c:1080-1164). */
module HstoreCmp {
  import opened Lexicographic
  import opened Hstore
  import opened Wrappers

  /** What the comparison sees of an entry. */
  function Code(e: HEntry): int { 2 * e.endpos + if e.isnull then 1 else 0 }

  function Codes(es: seq<HEntry>): (c: seq<int>)
    ensures |c| == |es| && forall i :: 0 <= i < |es| ==> c[i] == Code(es[i])
  {
    seq(|es|, i requires 0 <= i < |es| => Code(es[i]))
  }

  /** Empty hstores first; then by string buffer, number of pairs, and entries. */
  ghost predicate HLe(a: HStore, b: HStore) {
    a.entries == [] ||
    (b.entries != [] &&
     (Lt(a.str, b.str) ||
      (a.str == b.str &&
       (|a.entries| < |b.entries| || (|a.entries| == |b.entries| && Le(Codes(a.entries), Codes(b.entries)))))))
  }

  lemma HLeTotal(a: HStore, b: HStore)
    ensures HLe(a, b) || HLe(b, a)
  {
    LeTotal(a.str, b.str);
    LeTotal(Codes(a.entries), Codes(b.entries));
  }

  lemma HLeTransitive(a: HStore, b: HStore, c: HStore)
    requires HLe(a, b) && HLe(b, c)
    ensures HLe(a, c)
  {
    if a.entries != [] {
      if Lt(a.str, b.str) && Lt(b.str, c.str) {
        LeTransitive(a.str, b.str, c.str);
        if a.str == c.str { LeAntisymmetric(a.str, b.str); }
      } else if a.str == b.str == c.str && |a.entries| == |b.entries| == |c.entries| {
        LeTransitive(Codes(a.entries), Codes(b.entries), Codes(c.entries));
      }
    }
  }

  /** Hstores that compare equal hold the same map. */
  lemma HLeAntisymmetric(ps: seq<Pair>, qs: seq<Pair>)
    requires HLe(Layout(ps), Layout(qs)) && HLe(Layout(qs), Layout(ps))
    ensures ps == qs
  {
    var a, b := Layout(ps), Layout(qs);
    if a.entries != [] {
      if Lt(a.str, b.str) && Lt(b.str, a.str) { LeAntisymmetric(a.str, b.str); }
      LeAntisymmetric(Codes(a.entries), Codes(b.entries));
      CodesDecide(ps, qs);
    }
  }

  lemma CodesDecide(ps: seq<Pair>, qs: seq<Pair>)
    requires Codes(Layout(ps).entries) == Codes(Layout(qs).entries) && Layout(ps).str == Layout(qs).str
    ensures ps == qs
  {
    var a, b := Layout(ps), Layout(qs);
    forall k | 0 <= k < |a.entries| ensures a.entries[k] == b.entries[k] {
      assert Codes(a.entries)[k] == Codes(b.entries)[k];
      EntryFlags(ps, k);
      EntryFlags(qs, k);
    }
    LayoutInjective(ps, qs);
  }

  /** Only the very first entry is flagged as first. */
  lemma EntryFlags(ps: seq<Pair>, k: nat)
    requires k < |Layout(ps).entries|
    ensures Layout(ps).entries[k].isfirst <==> k == 0
  {
    PairEntries(ps, k / 2);
    assert k == 2 * (k / 2) || k == 2 * (k / 2) + 1;
  }

  lemma LastEntry(ps: seq<Pair>)
    requires ps != []
    ensures |Layout(ps).entries| == 2 * |ps| && Layout(ps).entries[2 * |ps| - 1].endpos == |Layout(ps).str|
  {
    PairEntries(ps, |ps| - 1);
  }

  /** Compares the entries one by one: the first that differs decides. */
  method CompareEntries(a: seq<HEntry>, b: seq<HEntry>) returns (res: int)
    requires |a| == |b|
    ensures (res <= 0 <==> Le(Codes(a), Codes(b))) && (res >= 0 <==> Le(Codes(b), Codes(a)))
  {
    var i := 0;
    while i < |a| && a[i].endpos == b[i].endpos && a[i].isnull == b[i].isnull
      invariant 0 <= i <= |a| && forall k :: 0 <= k < i ==> Code(a[k]) == Code(b[k])
    {
      i := i + 1;
    }
    assert Codes(a)[..i] == Codes(b)[..i];
    CommonIs(Codes(a), Codes(b), i);
    CommonIs(Codes(b), Codes(a), i);
    res := 0;
    if i < |a| {
      if a[i].endpos < b[i].endpos {
        res := -1;
      } else if a[i].endpos > b[i].endpos {
        res := 1;
      } else if a[i].isnull {
        res := 1;
      } else if b[i].isnull {
        res := -1;
      }
    }
  }

  /** The comparison of two hstores that are not empty. */
  method CompareNonempty(a: HStore, b: HStore) returns (res: int)
    requires a.entries != [] && a.entries[|a.entries| - 1].endpos == |a.str|
    requires b.entries != [] && b.entries[|b.entries| - 1].endpos == |b.str|
    ensures (res <= 0 <==> HLe(a, b)) && (res >= 0 <==> HLe(b, a))
  {
    var len1, len2 := a.entries[|a.entries| - 1].endpos, b.entries[|b.entries| - 1].endpos;
    assert a.str[..len1] == a.str && b.str[..len2] == b.str;
    var c := Compare(a.str[..len1], b.str[..len2]);
    LeTotal(a.str, b.str);
    if c != 0 {
      return if c > 0 then 1 else -1;
    }
    LeAntisymmetric(a.str, b.str);
    if |a.entries| != |b.entries| {
      return if |a.entries| > |b.entries| then 1 else -1;
    }
    res := CompareEntries(a.entries, b.entries);
  }

  /** hstore_cmp: a total order on canonical hstores, 0 exactly for equal maps. */
  method HstoreCmp(hs1: HStore, hs2: HStore, ghost ps: seq<Pair>, ghost qs: seq<Pair>) returns (res: int)
    requires Is(hs1, ps) && Is(hs2, qs)
    ensures (res <= 0 <==> HLe(hs1, hs2)) && (res >= 0 <==> HLe(hs2, hs1))
    ensures res == 0 <==> ps == qs
  {
    if hs1.entries == [] || hs2.entries == [] {
      res := if hs1.entries != [] then 1 else if hs2.entries != [] then -1 else 0;
    } else {
      LastEntry(ps);
      LastEntry(qs);
      res := CompareNonempty(hs1, hs2);
    }
    assert res == 0 <==> ps == qs by {
      HLeTotal(hs1, hs2);
      if res == 0 { HLeAntisymmetric(ps, qs); }
    }
  }
}
