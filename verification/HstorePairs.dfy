/** Making an hstore of a list of pairs in any order (contrib/hstore/hstore_io.c:281-402). */
module HstorePairs {
  import opened Lexicographic
  import opened Buffers
  import opened Hstore
  import opened Wrappers

  ghost predicate SortedLe(s: seq<Pair>) {
    forall i, j :: 0 <= i < j < |s| ==> KeyLe(s[i].key, s[j].key)
  }

  /** What the library sort may leave: pairs with equal keys come in some order. */
  ghost predicate IsSortOf(t: seq<Pair>, s: seq<Pair>) { SortedLe(t) && multiset(t) == multiset(s) }

  // Duplicates

  /** The first pair of every run of equal keys. */
  function Dedup(s: seq<Pair>): (d: seq<Pair>)
    ensures s != [] ==> d != []
  {
    if |s| <= 1 then s
    else
      var d := Dedup(s[..|s| - 1]);
      if d[|d| - 1].key == s[|s| - 1].key then d else d + [s[|s| - 1]]
  }

  predicate HasKey(s: seq<Pair>, key: Bytes) { exists i :: 0 <= i < |s| && s[i].key == key }

  lemma AppendSorted(d: seq<Pair>, p: Pair)
    requires Sorted(d) && (d != [] ==> KeyLt(d[|d| - 1].key, p.key))
    ensures Sorted(d + [p])
  {
    forall i | 0 <= i < |d| ensures KeyLt(d[i].key, p.key) {
      if i < |d| - 1 { KeyLtTransitive(d[i].key, d[|d| - 1].key, p.key); }
    }
  }

  lemma {:induction false} DedupMeans(s: seq<Pair>)
    requires SortedLe(s)
    ensures Sorted(Dedup(s))
    ensures forall p :: p in Dedup(s) ==> p in s
    ensures s != [] ==> Dedup(s)[|Dedup(s)| - 1].key == s[|s| - 1].key
  {
    if |s| > 1 {
      var init, last := s[..|s| - 1], s[|s| - 1];
      DedupMeans(init);
      assert KeyLe(s[|s| - 2].key, last.key);
      var d := Dedup(init);
      if d[|d| - 1].key != last.key { AppendSorted(d, last); }
    }
  }

  lemma {:induction false} DedupKeys(s: seq<Pair>, key: Bytes)
    ensures HasKey(Dedup(s), key) <==> HasKey(s, key)
  {
    if |s| > 1 {
      var init, last := s[..|s| - 1], s[|s| - 1];
      DedupKeys(init, key);
      var d := Dedup(init);
      assert HasKey(s, key) <==> HasKey(init, key) || last.key == key by {
        if HasKey(init, key) {
          var i :| 0 <= i < |init| && init[i].key == key;
          assert s[i].key == key;
        }
      }
      assert HasKey(d + [last], key) <==> HasKey(d, key) || last.key == key by {
        if HasKey(d, key) {
          var i :| 0 <= i < |d| && d[i].key == key;
          assert (d + [last])[i].key == key;
        }
        if last.key == key { assert (d + [last])[|d|].key == key; }
      }
    }
  }

  /** A list without duplicates stays as it is. */
  lemma {:induction false} DedupSorted(s: seq<Pair>)
    requires Sorted(s)
    ensures Dedup(s) == s
  {
    if |s| > 1 {
      DedupSorted(s[..|s| - 1]);
      assert KeyLt(s[|s| - 2].key, s[|s| - 1].key);
      assert s == s[..|s| - 1] + [s[|s| - 1]];
    }
  }

  /** hstoreUniquePairs behind its sort: closes up over duplicates in place and adds up the bytes. */
  method UniquePairs(a: array<Pair>) returns (n: nat, buflen: nat)
    modifies a
    ensures n <= a.Length && a[..n] == Dedup(old(a[..])) && buflen == TotalLen(Dedup(old(a[..])))
  {
    var l := a.Length;
    if l >= 2 {
      n, buflen := CloseUp(a);
      return;
    }
    buflen := 0;
    if l == 1 {
      buflen := ItemLen(a[0]);
      TotalMore([], a[0]);
      assert a[..1] == [] + [a[0]];
    }
    assert a[..l] == a[..];
    n := l;
  }

  method CloseUp(a: array<Pair>) returns (n: nat, buflen: nat)
    requires a.Length >= 2
    modifies a
    ensures n <= a.Length && a[..n] == Dedup(old(a[..])) && buflen == TotalLen(Dedup(old(a[..])))
  {
    ghost var s := a[..];
    ghost var d := s[..1];
    var ptr, res := 1, 0;
    buflen := 0;
    TotalMore([], s[0]);
    assert d == [] + [s[0]];
    while ptr < a.Length
      invariant Closing(a[..], s, d, ptr, res)
      invariant buflen + ItemLen(a[res]) == TotalLen(d)
    {
      ghost var d0 := d;
      var kept, last := false, a[res];
      kept, d := Advance(a, ptr, res, s, d);
      if kept {
        buflen := buflen + ItemLen(last);
        res := res + 1;
        TotalMore(d0, s[ptr]);
      }
      ptr := ptr + 1;
    }
    assert s[..|s|] == s;
    buflen := buflen + ItemLen(a[res]);
    n := res + 1;
  }

  /** The first `res + 1` places hold what is left of `s[..ptr]`; the places from `ptr` on are as they were. */
  ghost predicate Closing(a: seq<Pair>, s: seq<Pair>, d: seq<Pair>, ptr: int, res: int) {
    && 0 <= res < ptr <= |a| == |s|
    && d == Dedup(s[..ptr]) && |d| == res + 1 && a[..res + 1] == d
    && forall k :: ptr <= k < |a| ==> a[k] == s[k]
  }

  method Advance(a: array<Pair>, ptr: nat, res: nat, ghost s: seq<Pair>, ghost d: seq<Pair>)
    returns (kept: bool, ghost d': seq<Pair>)
    requires ptr < a.Length && Closing(a[..], s, d, ptr, res)
    modifies a
    ensures Closing(a[..], s, d', ptr + 1, if kept then res + 1 else res)
    ensures d' == if kept then d + [s[ptr]] else d
  {
    DedupStep(s, ptr);
    assert a[res] == d[res] && a[ptr] == s[ptr];
    kept := a[ptr].key != a[res].key;
    d' := d;
    if kept {
      d' := d + [s[ptr]];
      a[res + 1] := a[ptr];
    }
  }

  lemma DedupStep(s: seq<Pair>, n: nat)
    requires 0 < n < |s|
    ensures var d := Dedup(s[..n]);
      Dedup(s[..n + 1]) == if d[|d| - 1].key == s[n].key then d else d + [s[n]]
  {
    assert s[..n + 1][..n] == s[..n];
  }

  // Building the packed form

  /** An hstore under construction: entries and buffer, and how much may be written to them. */
  datatype Dest = Dest(ents: seq<HEntry>, buf: Bytes, maxItems: nat, maxBytes: nat)

  /** The items written so far are `out`. */
  ghost predicate Holds(d: Dest, out: seq<Pair>) {
    d.ents == RawTo(out, |out|) && d.buf == StrTo(out, |out|) && |out| <= d.maxItems && TotalLen(out) <= d.maxBytes < POS_LIMIT
  }

  ghost predicate Room(d: Dest, out: seq<Pair>, p: Pair) {
    |out| < d.maxItems && TotalLen(out) + ItemLen(p) <= d.maxBytes
  }

  ghost predicate SameRoom(d: Dest, e: Dest) { d.maxItems == e.maxItems && d.maxBytes == e.maxBytes }

  lemma HoldsMore(d: Dest, out: seq<Pair>, p: Pair, e: Dest)
    requires Holds(d, out) && Room(d, out, p) && SameRoom(d, e) && e.buf == d.buf + Flat(p)
    requires e.ents == d.ents + [HEntry(|d.buf| + |p.key|, false, false)] + [HEntry(|d.buf| + ItemLen(p), p.val.None?, false)]
    ensures Holds(e, out + [p])
  {
    var more := out + [p];
    FirstPairs(out, more, |out|);
    JoinTwo(d.ents, HEntry(|d.buf| + |p.key|, false, false), HEntry(|d.buf| + ItemLen(p), p.val.None?, false));
    assert more[|out|] == p;
  }

  lemma JoinTwo<T>(s: seq<T>, x: T, y: T)
    ensures s + [x] + [y] == s + [x, y]
  {
  }

  lemma FlatOf(p: Pair)
    ensures |Flat(p)| == ItemLen(p)
    ensures Flat(p) == if p.val.None? then p.key else p.key + p.val.value
  {
  }

  /** HS_COPYITEM: key and value in one piece. */
  method CopyItem(d: Dest, src: Bytes, klen: nat, vlen: nat, vnull: bool, ghost out: seq<Pair>, ghost p: Pair)
    returns (e: Dest)
    requires Holds(d, out) && Room(d, out, p)
    requires src == Flat(p) && klen == |p.key| && vlen == ValLen(p) && vnull == p.val.None?
    ensures Holds(e, out + [p]) && SameRoom(d, e)
  {
    var buf := d.buf + src;
    var ents := d.ents + [HEntry((|buf| - vlen) % POS_LIMIT, false, false)];
    ents := ents + [HEntry(|buf| % POS_LIMIT, vnull, false)];
    e := d.(ents := ents, buf := buf);
    HoldsMore(d, out, p, e);
  }

  /** HS_ADDITEM: key and value separately. */
  method AddItem(d: Dest, pair: Pair, ghost out: seq<Pair>) returns (e: Dest)
    requires Holds(d, out) && Room(d, out, pair)
    ensures Holds(e, out + [pair]) && SameRoom(d, e)
  {
    FlatOf(pair);
    var buf := d.buf + pair.key;
    var ents := d.ents + [HEntry(|buf| % POS_LIMIT, false, false)];
    if pair.val.None? {
      ents := ents + [HEntry(|buf| % POS_LIMIT, true, false)];
    } else {
      ghost var before := d.buf;
      JoinParts(before, pair.key, pair.val.value);
      buf := buf + pair.val.value;
      ents := ents + [HEntry(|buf| % POS_LIMIT, false, false)];
    }
    e := d.(ents := ents, buf := buf);
    HoldsMore(d, out, pair, e);
  }

  lemma JoinParts(a: Bytes, b: Bytes, c: Bytes)
    ensures a + b + c == a + (b + c)
  {
  }

  /** HS_FINALIZE. */
  method Finalize(d: Dest, ghost out: seq<Pair>) returns (h: HStore)
    requires Holds(d, out)
    ensures h == Layout(out)
  {
    h := HStore(FlagFirst(d.ents), d.buf);
  }

  /** hstorePairs: exactly sized; an allocation beyond the limit fails. */
  method HstoreOfPairs(pairs: seq<Pair>, buflen: nat) returns (r: Option<HStore>)
    requires buflen == TotalLen(pairs)
    ensures r == if Size(pairs) <= MAX_ALLOC then Some(Layout(pairs)) else None
  {
    if 8 * |pairs| + 8 + buflen > MAX_ALLOC {
      return None;
    }
    var d := Dest([], [], |pairs|, buflen);
    for i := 0 to |pairs|
      invariant Holds(d, pairs[..i]) && d.maxItems == |pairs| && d.maxBytes == buflen
    {
      FirstPairs(pairs, pairs[..i], i);
      SumUpTo(pairs, i + 1, |pairs|);
      d := AddItem(d, pairs[i], pairs[..i]);
      assert pairs[..i] + [pairs[i]] == pairs[..i + 1];
    }
    assert pairs[..|pairs|] == pairs;
    var h := Finalize(d, pairs);
    r := Some(h);
  }
}
