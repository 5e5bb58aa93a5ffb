/**
 The text output of hstores (contrib/hstore/hstore_io.c:1139-1221) and the input function
 (hstore_io.c:405-422).
 */
module HstoreIO {
  import opened Lexicographic
  import opened Buffers
  import opened Hstore
  import opened HstorePairs
  import opened HstoreParser
  import opened Wrappers

  // Output

  function EscapeOne(c: Byte): Bytes { if c == QUOTE || c == BACKSLASH then [BACKSLASH, c] else [c] }

  function Escape(w: Bytes): (e: Bytes)
    ensures |e| <= 2 * |w|
  {
    if w == [] then [] else EscapeOne(w[0]) + Escape(w[1..])
  }

  function Quoted(w: Bytes): Bytes { [QUOTE] + Escape(w) + [QUOTE] }

  function ShowVal(v: Option<Bytes>): Bytes { if v.None? then [78, 85, 76, 76] else Quoted(v.value) }

  function Show(p: Pair): Bytes { Quoted(p.key) + [EQUALS, GREATER] + ShowVal(p.val) }

  /** Item `i`: the pair, and a comma and a space unless it is the last one. */
  function Item(ps: seq<Pair>, i: nat): Bytes
    requires i < |ps|
  {
    Show(ps[i]) + if i + 1 != |ps| then [COMMA, SPACE] else []
  }

  function Items(ps: seq<Pair>): (items: seq<Bytes>)
    ensures |items| == |ps| && forall i :: 0 <= i < |ps| ==> items[i] == Item(ps, i)
  {
    seq(|ps|, i requires 0 <= i < |ps| => Item(ps, i))
  }

  /** The first `n` items, one behind the other. */
  function ConcatTo(items: seq<Bytes>, n: nat): Bytes
    requires n <= |items|
  {
    if n == 0 then [] else ConcatTo(items, n - 1) + items[n - 1]
  }

  function PrintTo(ps: seq<Pair>, n: nat): Bytes
    requires n <= |ps|
  {
    ConcatTo(Items(ps), n)
  }

  function Print(ps: seq<Pair>): Bytes { PrintTo(ps, |ps|) }

  /** The buffer space that hstore_out reckons with. */
  function Reckon(p: Pair): nat { 6 + 2 * |p.key| + 2 + if p.val.None? then 2 else 2 * |p.val.value| }

  function Reckons(ps: seq<Pair>): (rs: seq<nat>)
    ensures |rs| == |ps| && forall i :: 0 <= i < |ps| ==> rs[i] == Reckon(ps[i])
  {
    seq(|ps|, i requires 0 <= i < |ps| => Reckon(ps[i]))
  }

  function SumTo(rs: seq<nat>, n: nat): nat
    requires n <= |rs|
  {
    if n == 0 then 0 else SumTo(rs, n - 1) + rs[n - 1]
  }

  function BufLen(ps: seq<Pair>, n: nat): nat
    requires n <= |ps|
  {
    SumTo(Reckons(ps), n)
  }

  lemma ItemFits(ps: seq<Pair>, i: nat)
    requires i < |ps|
    ensures |Item(ps, i)| + (if i + 1 != |ps| then 0 else 2) <= Reckon(ps[i])
  {
  }

  /** Every item fits its share, and the last one leaves two bytes of it. */
  ghost predicate Fit(items: seq<Bytes>, rs: seq<nat>) {
    |items| == |rs| && forall i :: 0 <= i < |items| ==> |items[i]| + (if i + 1 != |items| then 0 else 2) <= rs[i]
  }

  lemma {:induction false} ConcatFits(items: seq<Bytes>, rs: seq<nat>, n: nat)
    requires n <= |items| && Fit(items, rs)
    ensures |ConcatTo(items, n)| + (if 0 < n == |items| then 2 else 0) <= SumTo(rs, n)
  {
    if n > 0 { ConcatFits(items, rs, n - 1); }
  }

  lemma {:induction false} SharesUpTo(rs: seq<nat>, n: nat, m: nat)
    requires n <= m <= |rs|
    ensures SumTo(rs, n) <= SumTo(rs, m)
  {
    if n < m { SharesUpTo(rs, n, m - 1); }
  }

  lemma ItemsFit(ps: seq<Pair>)
    ensures Fit(Items(ps), Reckons(ps))
  {
    forall i | 0 <= i < |ps| ensures |Items(ps)[i]| + (if i + 1 != |ps| then 0 else 2) <= Reckons(ps)[i] {
      ItemFits(ps, i);
    }
  }

  /** Everything printed fits what is reckoned, and behind the last item there is room for the terminator. */
  lemma PrintFits(ps: seq<Pair>, n: nat)
    requires n <= |ps|
    ensures |PrintTo(ps, n)| <= BufLen(ps, |ps|)
    ensures ps != [] ==> |Print(ps)| + 2 <= BufLen(ps, |ps|)
  {
    ItemsFit(ps);
    ConcatFits(Items(ps), Reckons(ps), n);
    ConcatFits(Items(ps), Reckons(ps), |ps|);
    SharesUpTo(Reckons(ps), n, |ps|);
  }

  lemma {:induction false} BufLenBound(ps: seq<Pair>, n: nat)
    requires n <= |ps|
    ensures BufLen(ps, n) <= 2 * Sum(ps, n) + 10 * n
  {
    if n > 0 { BufLenBound(ps, n - 1); }
  }

  /** The sum does not leave the range of a C int. */
  lemma BufLenIsInt(ps: seq<Pair>)
    requires Size(ps) <= MAX_ALLOC
    ensures BufLen(ps, |ps|) <= 0x7fff_ffff
  {
    BufLenBound(ps, |ps|);
  }

  lemma {:induction false} EscapeSnoc(w: Bytes, k: nat)
    requires k < |w|
    ensures Escape(w[..k + 1]) == Escape(w[..k]) + EscapeOne(w[k])
    decreases k
  {
    if k == 0 {
      assert w[..1] == [w[0]] && w[..0] == [] && w[..1][1..] == [];
      assert Escape(w[..1]) == EscapeOne(w[0]) + Escape([]);
    } else {
      EscapeSnoc(w[1..], k - 1);
      assert w[..k + 1][1..] == w[1..][..k] && w[..k][1..] == w[1..][..k - 1];
    }
  }

  /** A buffer written from the front: `ptr` bytes are done. */
  ghost predicate Wrote(buf: array<Byte>, ptr: nat, text: Bytes)
    reads buf
  {
    ptr == |text| <= buf.Length && buf[..ptr] == text
  }

  method Put(buf: array<Byte>, ptr: nat, c: Byte, ghost text: Bytes) returns (next: nat)
    requires Wrote(buf, ptr, text) && ptr < buf.Length
    modifies buf
    ensures next == ptr + 1 && Wrote(buf, next, text + [c])
  {
    buf[ptr] := c;
    next := ptr + 1;
  }

  /** cpw: copies a string, escaping quotes and backslashes. */
  method Cpw(dst: array<Byte>, ptr: nat, src: Bytes, ghost text: Bytes) returns (next: nat)
    requires Wrote(dst, ptr, text) && ptr + |Escape(src)| <= dst.Length
    modifies dst
    ensures next == ptr + |Escape(src)| && Wrote(dst, next, text + Escape(src))
  {
    next := ptr;
    assert text + Escape(src[..0]) == text;
    for k := 0 to |src|
      invariant next == ptr + |Escape(src[..k])| && Wrote(dst, next, text + Escape(src[..k]))
    {
      EscapeSnoc(src, k);
      EscapeUpTo(src, k + 1);
      ghost var done := text + Escape(src[..k]);
      next := PutEscaped(dst, next, src[k], done);
      JoinOne(text, Escape(src[..k]), EscapeOne(src[k]));
    }
    assert src[..|src|] == src;
  }

  method PutEscaped(dst: array<Byte>, ptr: nat, c: Byte, ghost text: Bytes) returns (next: nat)
    requires Wrote(dst, ptr, text) && ptr + |EscapeOne(c)| <= dst.Length
    modifies dst
    ensures next == ptr + |EscapeOne(c)| && Wrote(dst, next, text + EscapeOne(c))
  {
    if c == QUOTE || c == BACKSLASH {
      next := Put(dst, ptr, BACKSLASH, text);
      next := Put(dst, next, c, text + [BACKSLASH]);
      JoinOne(text, [BACKSLASH], [c]);
    } else {
      next := Put(dst, ptr, c, text);
    }
  }

  lemma JoinOne(a: Bytes, b: Bytes, c: Bytes)
    ensures a + b + c == a + (b + c)
  {
  }

  lemma {:induction false} EscapeUpTo(w: Bytes, k: nat)
    requires k <= |w|
    ensures |Escape(w[..k])| <= |Escape(w)|
    decreases |w| - k
  {
    if k == |w| {
      assert w[..k] == w;
    } else {
      EscapeSnoc(w, k);
      EscapeUpTo(w, k + 1);
    }
  }

  method PutQuoted(buf: array<Byte>, ptr: nat, w: Bytes, ghost text: Bytes) returns (next: nat)
    requires Wrote(buf, ptr, text) && ptr + |Quoted(w)| <= buf.Length
    modifies buf
    ensures next == ptr + |Quoted(w)| && Wrote(buf, next, text + Quoted(w))
  {
    next := Put(buf, ptr, QUOTE, text);
    next := Cpw(buf, next, w, text + [QUOTE]);
    next := Put(buf, next, QUOTE, text + [QUOTE] + Escape(w));
    JoinQuoted(text, QUOTE, Escape(w));
  }

  lemma JoinQuoted(text: Bytes, q: Byte, w: Bytes)
    ensures text + [q] + w + [q] == text + ([q] + w + [q])
  {
  }

  method PutVal(buf: array<Byte>, ptr: nat, v: Option<Bytes>, ghost text: Bytes) returns (next: nat)
    requires Wrote(buf, ptr, text) && ptr + |ShowVal(v)| <= buf.Length
    modifies buf
    ensures next == ptr + |ShowVal(v)| && Wrote(buf, next, text + ShowVal(v))
  {
    if v.None? {
      next := Put(buf, ptr, 78, text);
      next := Put(buf, next, 85, text + [78]);
      next := Put(buf, next, 76, text + [78] + [85]);
      next := Put(buf, next, 76, text + [78] + [85] + [76]);
      assert text + [78] + [85] + [76] + [76] == text + ShowVal(v);
    } else {
      next := PutQuoted(buf, ptr, v.value, text);
    }
  }

  method PutPair(buf: array<Byte>, ptr: nat, p: Pair, ghost text: Bytes) returns (next: nat)
    requires Wrote(buf, ptr, text) && ptr + |Show(p)| <= buf.Length
    modifies buf
    ensures next == ptr + |Show(p)| && Wrote(buf, next, text + Show(p))
  {
    ghost var q := text + Quoted(p.key);
    next := PutQuoted(buf, ptr, p.key, text);
    next := Put(buf, next, EQUALS, q);
    next := Put(buf, next, GREATER, q + [EQUALS]);
    next := PutVal(buf, next, p.val, q + [EQUALS] + [GREATER]);
    JoinPair(text, Quoted(p.key), EQUALS, GREATER, ShowVal(p.val));
  }

  lemma JoinPair(text: Bytes, key: Bytes, c: Byte, d: Byte, val: Bytes)
    ensures text + key + [c] + [d] + val == text + (key + [c, d] + val)
  {
  }

  method PutItem(buf: array<Byte>, ptr: nat, p: Pair, last: bool, ghost ps: seq<Pair>, ghost i: nat, ghost item: Bytes,
                 ghost text: Bytes)
    returns (next: nat)
    requires i < |ps| && p == ps[i] && last == (i + 1 == |ps|) && item == Item(ps, i)
    requires Wrote(buf, ptr, text) && ptr + |item| <= buf.Length
    modifies buf
    ensures Wrote(buf, next, text + item)
  {
    next := PutPair(buf, ptr, p, text);
    if !last {
      next := Put(buf, next, COMMA, text + Show(p));
      next := Put(buf, next, SPACE, text + Show(p) + [COMMA]);
    }
    assert text + item == text + Show(p) + (if last then [] else [COMMA] + [SPACE]);
  }

  method ReckonAll(hs: HStore, ghost ps: seq<Pair>) returns (buflen: nat)
    requires hs == Layout(ps)
    ensures buflen == BufLen(ps, |ps|)
  {
    buflen := 0;
    var count := CountOf(hs, ps);
    for i := 0 to count
      invariant buflen == BufLen(ps, i)
    {
      var p := GetPair(hs, i, ps);
      buflen := buflen + 6 + 2 * |p.key|;
      buflen := buflen + 2 + if p.val.None? then 2 else 2 * |p.val.value|;
    }
  }

  lemma NextFits(items: seq<Bytes>, rs: seq<nat>, i: nat)
    requires Fit(items, rs) && i < |items|
    ensures ConcatTo(items, i + 1) == ConcatTo(items, i) + items[i]
    ensures |ConcatTo(items, i)| + |items[i]| <= SumTo(rs, |rs|)
  {
    ConcatFits(items, rs, i + 1);
    SharesUpTo(rs, i + 1, |rs|);
  }

  /** Writes item `i` into a buffer that reckons with all of them. */
  method WriteItem(hs: HStore, out: array<Byte>, ptr: nat, i: nat, last: bool,
                   ghost ps: seq<Pair>, ghost items: seq<Bytes>, ghost rs: seq<nat>)
    returns (next: nat)
    requires hs == Layout(ps) && i < |ps| == |items| && last == (i + 1 == |ps|) && items[i] == Item(ps, i)
    requires Fit(items, rs) && out.Length == SumTo(rs, |rs|) && Wrote(out, ptr, ConcatTo(items, i))
    modifies out
    ensures Wrote(out, next, ConcatTo(items, i + 1))
  {
    var p := GetPair(hs, i, ps);
    NextFits(items, rs, i);
    next := PutItem(out, ptr, p, last, ps, i, items[i], ConcatTo(items, i));
  }

  method WriteAll(hs: HStore, buflen: nat, ghost ps: seq<Pair>) returns (text: Bytes)
    requires hs == Layout(ps) && ps != [] && buflen == BufLen(ps, |ps|)
    ensures text == Print(ps)
  {
    ghost var items, rs := Items(ps), Reckons(ps);
    ItemsFit(ps);
    var out := new Byte[buflen];
    var ptr: nat := 0;
    var count := CountOf(hs, ps);
    for i := 0 to count
      invariant Wrote(out, ptr, ConcatTo(items, i))
    {
      ptr := WriteItem(hs, out, ptr, i, i + 1 == count, ps, items, rs);
    }
    ConcatFits(items, rs, count);
    text := out[..ptr];
    out[ptr] := NUL;
  }

  /** What hstore_out gives: no text when the reckoned buffer exceeds the allocation limit. */
  function Output(ps: seq<Pair>): Option<Bytes> {
    if BufLen(ps, |ps|) <= MAX_ALLOC then Some(Print(ps)) else None
  }

  /** hstore_out: fails when the reckoned buffer exceeds the allocation limit; all writes stay inside it. */
  method HstoreOut(hs: HStore, ghost ps: seq<Pair>) returns (r: Option<Bytes>)
    requires Is(hs, ps)
    ensures r == Output(ps)
  {
    if Count(hs) == 0 {
      return Some([]);
    }
    var buflen := ReckonAll(hs, ps);
    if buflen > MAX_ALLOC {
      return None;
    }
    var text := WriteAll(hs, buflen, ps);
    r := Some(text);
  }

  // Input

  datatype Input = Value(h: HStore) | Failed(why: Parsed) | TooBig

  /** What hstore_in may make of a text; the sort leaves pairs with equal keys in some order. */
  ghost predicate Reads(t: Bytes, r: Input) {
    var p := Parse(t);
    if p.Pairs? then exists s :: IsSortOf(s, p.ps) && r == Made(s) else r == Failed(p)
  }

  function Made(s: seq<Pair>): Input { if Size(Dedup(s)) <= MAX_ALLOC then Value(Layout(Dedup(s))) else TooBig }

  /** hstore_in; `sorted` is what the library sort leaves of the parsed pairs. */
  method HstoreIn(t: Bytes, sorted: seq<Pair>) returns (r: Input)
    requires Parse(t).Pairs? ==> IsSortOf(sorted, Parse(t).ps)
    ensures Reads(t, r)
  {
    var parser := new HSParser(t);
    var p := parser.ParseHstore();
    if !p.Pairs? {
      return Failed(p);
    }
    var a := new Pair[|sorted|](i requires 0 <= i < |sorted| => sorted[i]);
    assert a[..] == sorted;
    var n, buflen := UniquePairs(a);
    var h := HstoreOfPairs(a[..n], buflen);
    r := if h.Some? then Value(h.value) else TooBig;
    assert r == Made(sorted);
  }

  /** What hstore_in makes is canonical, and has exactly the keys of the text. */
  lemma InputIsCanonical(t: Bytes, r: Input)
    requires Reads(t, r) && r.Value?
    ensures Parse(t).Pairs?
    ensures exists ps :: Is(r.h, ps) && (forall p :: p in ps ==> p in Parse(t).ps) &&
                         (forall k :: HasKey(ps, k) <==> HasKey(Parse(t).ps, k))
  {
    var in_ := Parse(t).ps;
    var s :| IsSortOf(s, in_) && r == Made(s);
    var ps := Dedup(s);
    DedupMeans(s);
    forall p | p in ps ensures p in in_ { assert p in multiset(s); }
    forall k ensures HasKey(ps, k) <==> HasKey(in_, k) {
      DedupKeys(s, k);
      SameKeysSorted(s, in_, k);
    }
    assert Is(r.h, ps);
  }

  lemma SameKeysSorted(s: seq<Pair>, t: seq<Pair>, k: Bytes)
    requires multiset(s) == multiset(t)
    ensures HasKey(s, k) <==> HasKey(t, k)
  {
    if HasKey(s, k) {
      var i :| 0 <= i < |s| && s[i].key == k;
      assert s[i] in multiset(t);
    }
    if HasKey(t, k) {
      var i :| 0 <= i < |t| && t[i].key == k;
      assert t[i] in multiset(s);
    }
  }
}
