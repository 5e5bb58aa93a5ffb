/**
 Printing an hstore and reading the text back: the identical value, exactly when the text fits its buffer,
 no byte is NUL and the pairs are no more than the parser's array can hold.
 */
module HstoreRoundTrip {
  import opened Lexicographic
  import opened Buffers
  import opened Hstore
  import opened HstorePairs
  import opened HstoreParser
  import opened HstoreIO
  import opened Wrappers

  predicate NoNul(w: Bytes) { NUL !in w }

  predicate PairNoNul(p: Pair) { NoNul(p.key) && (p.val.Some? ==> NoNul(p.val.value)) }

  /** `b` stands at position `i` of the text. */
  ghost predicate Here(t: Bytes, i: int, b: Bytes) { 0 <= i && i + |b| <= |t| && t[i..i + |b|] == b }

  lemma HereParts(t: Bytes, i: int, a: Bytes, b: Bytes)
    requires Here(t, i, a + b)
    ensures Here(t, i, a) && Here(t, i + |a|, b)
  {
    assert t[i..i + |a|] == t[i..i + |a + b|][..|a|];
    assert t[i + |a|..i + |a| + |b|] == t[i..i + |a + b|][|a|..];
  }

  lemma HereByte(t: Bytes, i: int, c: Byte)
    requires Here(t, i, [c])
    ensures At(t, i) == c
  {
    assert t[i..i + 1][0] == t[i];
  }

  // Words

  lemma EscapeHere(t: Bytes, i: nat, c: Byte, rest: Bytes)
    requires Here(t, i, Escape([c] + rest))
    ensures Here(t, i, EscapeOne(c)) && Here(t, i + |EscapeOne(c)|, Escape(rest))
    ensures |Escape([c] + rest)| == |EscapeOne(c)| + |Escape(rest)|
  {
    assert ([c] + rest)[1..] == rest;
    HereParts(t, i, EscapeOne(c), Escape(rest));
  }

  lemma ConsAppend(acc: Bytes, c: Byte, rest: Bytes)
    ensures acc + [c] + rest == acc + ([c] + rest)
  {
  }

  /** Inside quotes, the escaped form of a word reads as the word. */
  lemma {:induction false} EscapeScans(t: Bytes, i: nat, w: Bytes, acc: Bytes, ignoreeq: bool)
    requires Here(t, i, Escape(w)) && NoNul(w) && |acc| + |w| <= MAX_WORD
    ensures Scan(t, i, InQuotes, acc, true, ignoreeq) == Scan(t, i + |Escape(w)|, InQuotes, acc + w, true, ignoreeq)
    decreases |w|
  {
    if w == [] {
      assert acc + w == acc;
    } else {
      var c, rest := w[0], w[1..];
      assert w == [c] + rest;
      EscapeConsScans(t, i, c, rest, acc, ignoreeq);
      EscapeScans(t, i + |EscapeOne(c)|, rest, acc + [c], ignoreeq);
    }
  }

  lemma EscapeConsScans(t: Bytes, i: nat, c: Byte, rest: Bytes, acc: Bytes, ignoreeq: bool)
    requires Here(t, i, Escape([c] + rest)) && c != NUL && |acc| < MAX_WORD
    ensures Here(t, i + |EscapeOne(c)|, Escape(rest)) && |Escape([c] + rest)| == |EscapeOne(c)| + |Escape(rest)|
    ensures acc + [c] + rest == acc + ([c] + rest)
    ensures Scan(t, i, InQuotes, acc, true, ignoreeq) ==
            Scan(t, i + |EscapeOne(c)|, InQuotes, acc + [c], true, ignoreeq)
  {
    ConsAppend(acc, c, rest);
    EscapeHere(t, i, c, rest);
    EscapeOneScans(t, i, c, acc, ignoreeq);
  }

  lemma EscapeOneScans(t: Bytes, i: nat, c: Byte, acc: Bytes, ignoreeq: bool)
    requires Here(t, i, EscapeOne(c)) && c != NUL && |acc| < MAX_WORD
    ensures Scan(t, i, InQuotes, acc, true, ignoreeq) ==
            Scan(t, i + |EscapeOne(c)|, InQuotes, acc + [c], true, ignoreeq)
  {
    if c == QUOTE || c == BACKSLASH {
      HereParts(t, i, [BACKSLASH], [c]);
      HereByte(t, i, BACKSLASH);
      HereByte(t, i + 1, c);
      assert Scan(t, i, InQuotes, acc, true, ignoreeq) == Scan(t, i + 1, QuotedEscape, acc, true, ignoreeq);
    } else {
      HereByte(t, i, c);
    }
  }

  lemma OpenQuote(t: Bytes, i: nat, w: Bytes, ignoreeq: bool)
    requires Here(t, i, [QUOTE] + Escape(w)) && NoNul(w) && |w| <= MAX_WORD
    ensures Scan(t, i, Waiting, [], false, ignoreeq) == Scan(t, i + 1 + |Escape(w)|, InQuotes, w, true, ignoreeq)
  {
    HereParts(t, i, [QUOTE], Escape(w));
    HereByte(t, i, QUOTE);
    EscapeScans(t, i + 1, w, [], ignoreeq);
    assert [] + w == w;
  }

  lemma QuotedScans(t: Bytes, i: nat, w: Bytes, ignoreeq: bool)
    requires Here(t, i, Quoted(w)) && NoNul(w) && |w| <= MAX_WORD
    ensures Scan(t, i, Waiting, [], false, ignoreeq) == Word(w, true, i + |Quoted(w)| - 1)
  {
    HereParts(t, i, [QUOTE] + Escape(w), [QUOTE]);
    OpenQuote(t, i, w, ignoreeq);
    HereByte(t, i + 1 + |Escape(w)|, QUOTE);
  }

  /** A quoted word that the text breaks off in. */
  lemma BrokenQuote(t: Bytes, i: nat, w: Bytes, ignoreeq: bool)
    requires Here(t, i, [QUOTE] + Escape(w)) && i + 1 + |Escape(w)| == |t| && NoNul(w) && |w| <= MAX_WORD
    ensures Scan(t, i, Waiting, [], false, ignoreeq) == WordEnd
  {
    OpenQuote(t, i, w, ignoreeq);
  }

  lemma NullScans(t: Bytes, i: nat)
    requires Here(t, i, [78, 85, 76, 76]) && At(t, i + 4) in {COMMA, NUL}
    ensures Scan(t, i, Waiting, [], false, true) == Word([78, 85, 76, 76], false, i + 3)
  {
    var s := t[i..i + 4];
    assert s[0] == t[i] && s[1] == t[i + 1] && s[2] == t[i + 2] && s[3] == t[i + 3];
    var n: Bytes := [78];
    var nu: Bytes := [78, 85];
    var nul: Bytes := [78, 85, 76];
    assert [] + [78] == n && n + [85] == nu && nu + [76] == nul && nul + [76] == s;
    assert Scan(t, i, Waiting, [], false, true) == Scan(t, i + 1, InWord, n, false, true);
    assert Scan(t, i + 1, InWord, n, false, true) == Scan(t, i + 2, InWord, nu, false, true);
    assert Scan(t, i + 2, InWord, nu, false, true) == Scan(t, i + 3, InWord, nul, false, true);
    assert Scan(t, i + 3, InWord, nul, false, true) == Scan(t, i + 4, InWord, s, false, true);
  }

  // Pairs

  lemma KeyParses(t: Bytes, o: nat, key: Bytes, acc: seq<Pair>)
    requires Here(t, o, Quoted(key) + [EQUALS, GREATER]) && NoNul(key) && |key| <= MAX_WORD && |acc| < MAX_PAIRS
    ensures ParseFrom(t, o, WaitKey, [], acc) == ParseFrom(t, o + |Quoted(key)| + 2, WaitVal, key, acc)
  {
    HereParts(t, o, Quoted(key), [EQUALS, GREATER]);
    HereParts(t, o + |Quoted(key)|, [EQUALS], [GREATER]);
    HereByte(t, o + |Quoted(key)|, EQUALS);
    HereByte(t, o + |Quoted(key)| + 1, GREATER);
    QuotedScans(t, o, key, false);
    var n := o + |Quoted(key)|;
    assert ParseFrom(t, o, WaitKey, [], acc) == ParseFrom(t, n, WaitEq, key, acc);
    assert ParseFrom(t, n, WaitEq, key, acc) == ParseFrom(t, n + 1, WaitGt, key, acc);
  }

  lemma ValParses(t: Bytes, o: nat, key: Bytes, v: Option<Bytes>, acc: seq<Pair>)
    requires Here(t, o, ShowVal(v)) && At(t, o + |ShowVal(v)|) in {COMMA, NUL}
    requires v.Some? ==> NoNul(v.value) && |v.value| <= MAX_WORD
    ensures ParseFrom(t, o, WaitVal, key, acc) == ParseFrom(t, o + |ShowVal(v)|, WaitDel, [], acc + [Pair(key, v)])
  {
    if v.None? {
      NullScans(t, o);
    } else {
      QuotedScans(t, o, v.value, true);
    }
  }

  ghost predicate Short(p: Pair) { |p.key| <= MAX_WORD && ValLen(p) <= MAX_WORD }

  lemma PairParses(t: Bytes, o: nat, p: Pair, acc: seq<Pair>)
    requires Here(t, o, Show(p)) && At(t, o + |Show(p)|) in {COMMA, NUL}
    requires PairNoNul(p) && Short(p) && |acc| < MAX_PAIRS
    ensures ParseFrom(t, o, WaitKey, [], acc) == ParseFrom(t, o + |Show(p)|, WaitDel, [], acc + [p])
  {
    var v := PairHere(t, o, p);
    KeyParses(t, o, p.key, acc);
    ValParses(t, v, p.key, p.val, acc);
  }

  /** Where the parts of a pair stand; `v` is the place of the value. */
  lemma PairHere(t: Bytes, o: nat, p: Pair) returns (v: nat)
    requires Here(t, o, Show(p))
    ensures v == o + |Quoted(p.key)| + 2 && v + |ShowVal(p.val)| == o + |Show(p)|
    ensures Here(t, o, Quoted(p.key) + [EQUALS, GREATER]) && Here(t, v, ShowVal(p.val))
  {
    HereParts(t, o, Quoted(p.key) + [EQUALS, GREATER], ShowVal(p.val));
    v := o + |Quoted(p.key)| + 2;
  }

  lemma SeparatorParses(t: Bytes, o: nat, acc: seq<Pair>)
    requires Here(t, o, [COMMA, SPACE])
    ensures ParseFrom(t, o, WaitDel, [], acc) == ParseFrom(t, o + 2, WaitKey, [], acc)
  {
    HereParts(t, o, [COMMA], [SPACE]);
    HereByte(t, o, COMMA);
    HereByte(t, o + 1, SPACE);
    assert ParseFrom(t, o, WaitDel, [], acc) == ParseFrom(t, o + 1, WaitKey, [], acc);
    assert Scan(t, o + 1, Waiting, [], false, false) == Scan(t, o + 2, Waiting, [], false, false);
  }

  lemma SeparatorByte(t: Bytes, o: nat)
    requires Here(t, o, [COMMA, SPACE])
    ensures At(t, o) == COMMA
  {
    HereParts(t, o, [COMMA], [SPACE]);
    HereByte(t, o, COMMA);
  }

  lemma ItemParses(t: Bytes, o: nat, p: Pair, acc: seq<Pair>)
    requires Here(t, o, Show(p) + [COMMA, SPACE]) && PairNoNul(p) && Short(p) && |acc| < MAX_PAIRS
    ensures ParseFrom(t, o, WaitKey, [], acc) == ParseFrom(t, o + |Show(p)| + 2, WaitKey, [], acc + [p])
  {
    HereParts(t, o, Show(p), [COMMA, SPACE]);
    SeparatorByte(t, o + |Show(p)|);
    PairParses(t, o, p, acc);
    SeparatorParses(t, o + |Show(p)|, acc + [p]);
  }

  // Texts

  lemma {:induction false} ConcatPrefix(items: seq<Bytes>, k: nat, n: nat)
    requires k <= n <= |items|
    ensures Prefix(ConcatTo(items, k), ConcatTo(items, n))
  {
    if k < n {
      ConcatPrefix(items, k, n - 1);
      PrefixGrows(ConcatTo(items, k), ConcatTo(items, n - 1), items[n - 1]);
    }
  }

  lemma PrefixGrows(a: Bytes, b: Bytes, c: Bytes)
    requires Prefix(a, b)
    ensures Prefix(a, b + c)
  {
    assert (b + c)[..|a|] == b[..|a|];
  }

  lemma HereInPrefix(t: Bytes, a: Bytes, b: Bytes)
    requires Prefix(a + b, t)
    ensures Here(t, |a|, b)
  {
    assert t[|a|..|a| + |b|] == t[..|a + b|][|a|..] == (a + b)[|a|..];
  }

  lemma PrefixTrans(a: Bytes, b: Bytes, c: Bytes)
    requires Prefix(a, b) && Prefix(b, c)
    ensures Prefix(a, c)
  {
    assert c[..|a|] == c[..|b|][..|a|];
  }

  ghost predicate Clean(ps: seq<Pair>, n: nat) {
    n <= |ps| && forall i :: 0 <= i < n ==> PairNoNul(ps[i])
  }

  ghost predicate AllShort(ps: seq<Pair>) { forall i :: 0 <= i < |ps| ==> Short(ps[i]) }

  lemma ShorterPrefix(t: Bytes, items: seq<Bytes>, k: nat)
    requires k < |items| && Prefix(ConcatTo(items, k + 1), t)
    ensures Prefix(ConcatTo(items, k), t) && Here(t, |ConcatTo(items, k)|, items[k])
    ensures |ConcatTo(items, k)| + |items[k]| == |ConcatTo(items, k + 1)| <= |t|
  {
    ConcatPrefix(items, k, k + 1);
    PrefixTrans(ConcatTo(items, k), ConcatTo(items, k + 1), t);
    HereInPrefix(t, ConcatTo(items, k), items[k]);
  }

  lemma Extend(ps: seq<Pair>, k: nat)
    requires k < |ps|
    ensures ps[..k] + [ps[k]] == ps[..k + 1]
  {
  }

  ghost predicate ItemReady(ps: seq<Pair>, items: seq<Bytes>, k: nat) {
    && k < |ps| == |items| && k < MAX_PAIRS
    && items[k] == Show(ps[k]) + [COMMA, SPACE] && PairNoNul(ps[k]) && Short(ps[k])
  }

  /** The first `n` items are followed by a separator and can be read back. */
  ghost predicate Ready(ps: seq<Pair>, items: seq<Bytes>, n: nat) {
    forall k :: 0 <= k < n ==> ItemReady(ps, items, k)
  }

  lemma ItemIsReady(ps: seq<Pair>, k: nat)
    requires k + 1 < |ps| && k < MAX_PAIRS && PairNoNul(ps[k]) && Short(ps[k])
    ensures ItemReady(ps, Items(ps), k)
  {
  }

  lemma CleanReady(ps: seq<Pair>, n: nat)
    requires n < |ps| && n <= MAX_PAIRS && Clean(ps, n) && AllShort(ps)
    ensures Ready(ps, Items(ps), n)
  {
    forall k | 0 <= k < n ensures ItemReady(ps, Items(ps), k) { ItemIsReady(ps, k); }
  }

  /** Where the parser is before pair `n`. */
  ghost function BeforePair(t: Bytes, ps: seq<Pair>, items: seq<Bytes>, n: nat): Parsed
    requires n <= |ps| == |items| && Prefix(ConcatTo(items, n), t)
  {
    ParseFrom(t, |ConcatTo(items, n)|, WaitKey, [], ps[..n])
  }

  /** The parser reads pair `k` where its item stands. */
  lemma StepAt(t: Bytes, ps: seq<Pair>, items: seq<Bytes>, k: nat)
    requires ItemReady(ps, items, k) && Prefix(ConcatTo(items, k + 1), t)
    ensures Prefix(ConcatTo(items, k), t) && BeforePair(t, ps, items, k) == BeforePair(t, ps, items, k + 1)
  {
    ShorterPrefix(t, items, k);
    Extend(ps, k);
    ItemParses(t, |ConcatTo(items, k)|, ps[k], ps[..k]);
  }

  lemma ParsesNone(t: Bytes, ps: seq<Pair>, items: seq<Bytes>)
    requires |ps| == |items|
    ensures Prefix(ConcatTo(items, 0), t) && Parse(t) == BeforePair(t, ps, items, 0)
  {
    assert ps[..0] == [] && t[..0] == [];
  }

  lemma ReadyStep(ps: seq<Pair>, items: seq<Bytes>, n: nat)
    requires 0 < n && Ready(ps, items, n)
    ensures ItemReady(ps, items, n - 1) && Ready(ps, items, n - 1)
  {
  }

  /** The parser reads the first `n` pairs, whatever follows them. */
  lemma {:induction false} ParsesUpTo(t: Bytes, ps: seq<Pair>, items: seq<Bytes>, n: nat)
    requires n <= |ps| == |items| && Ready(ps, items, n) && Prefix(ConcatTo(items, n), t)
    ensures Parse(t) == BeforePair(t, ps, items, n)
  {
    if n == 0 {
      ParsesNone(t, ps, items);
    } else {
      ReadyStep(ps, items, n);
      ShorterPrefix(t, items, n - 1);
      ParsesUpTo(t, ps, items, n - 1);
      ParsesOneMore(t, ps, items, n - 1, Parse(t));
    }
  }

  lemma ParsesOneMore(t: Bytes, ps: seq<Pair>, items: seq<Bytes>, k: nat, r: Parsed)
    requires ItemReady(ps, items, k) && Prefix(ConcatTo(items, k), t) && Prefix(ConcatTo(items, k + 1), t)
    requires r == BeforePair(t, ps, items, k)
    ensures r == BeforePair(t, ps, items, k + 1)
  {
    StepAt(t, ps, items, k);
  }

  lemma LastParses(t: Bytes, ps: seq<Pair>, items: seq<Bytes>)
    requires 0 < |ps| == |items| && |ps| <= MAX_PAIRS
    requires items[|ps| - 1] == Show(ps[|ps| - 1]) && t == ConcatTo(items, |ps|)
    requires PairNoNul(ps[|ps| - 1]) && Short(ps[|ps| - 1])
    ensures ParseFrom(t, |ConcatTo(items, |ps| - 1)|, WaitKey, [], ps[..|ps| - 1]) == Pairs(ps)
  {
    var k := |ps| - 1;
    Extend(ps, k);
    assert ps[..|ps|] == ps && t[..|t|] == t;
    ShorterPrefix(t, items, k);
    PairParses(t, |ConcatTo(items, k)|, ps[k], ps[..k]);
  }

  lemma AllParses(t: Bytes, ps: seq<Pair>, items: seq<Bytes>)
    requires 0 < |ps| == |items| && |ps| <= MAX_PAIRS && Ready(ps, items, |ps| - 1) && t == ConcatTo(items, |ps|)
    requires items[|ps| - 1] == Show(ps[|ps| - 1]) && PairNoNul(ps[|ps| - 1]) && Short(ps[|ps| - 1])
    ensures Parse(t) == Pairs(ps)
  {
    ConcatPrefix(items, |ps| - 1, |ps|);
    ParsesUpTo(t, ps, items, |ps| - 1);
    LastParses(t, ps, items);
  }

  lemma LastItem(ps: seq<Pair>)
    requires ps != []
    ensures Items(ps)[|ps| - 1] == Show(ps[|ps| - 1])
  {
    assert Item(ps, |ps| - 1) == Show(ps[|ps| - 1]);
  }

  lemma EmptyParses()
    ensures Parse([]) == Pairs([])
  {
    assert Scan([], 0, Waiting, [], false, false) == NoWord;
  }

  /** The whole text of a clean list reads back as the list. */
  lemma PrintParses(ps: seq<Pair>)
    requires Clean(ps, |ps|) && AllShort(ps) && |ps| <= MAX_PAIRS
    ensures Parse(Print(ps)) == Pairs(ps)
  {
    if ps == [] {
      EmptyParses();
    } else {
      PrintedParses(ps);
    }
  }

  lemma PrintedParses(ps: seq<Pair>)
    requires ps != [] && Clean(ps, |ps|) && AllShort(ps) && |ps| <= MAX_PAIRS
    ensures Parse(Print(ps)) == Pairs(ps)
  {
    var n := |ps| - 1;
    assert PairNoNul(ps[n]) && Short(ps[n]);
    LastItem(ps);
    CleanReady(ps, n);
    PrintIsConcat(ps);
    AllParses(Print(ps), ps, Items(ps));
  }

  lemma PrintIsConcat(ps: seq<Pair>)
    ensures Print(ps) == ConcatTo(Items(ps), |ps|) && |Items(ps)| == |ps|
  {
  }

  // Texts with a NUL byte

  /** What a C string shows of a buffer. */
  function CString(b: Bytes): Bytes {
    if b == [] || b[0] == NUL then [] else [b[0]] + CString(b[1..])
  }

  lemma {:induction false} CStringOf(a: Bytes, b: Bytes)
    requires NoNul(a)
    ensures CString(a + b) == a + CString(b)
  {
    if a == [] {
      assert a + b == b;
    } else {
      assert (a + b)[1..] == a[1..] + b;
      assert a == [a[0]] + a[1..];
      CStringOf(a[1..], b);
    }
  }

  lemma {:induction false} EscapeSplit(a: Bytes, b: Bytes)
    ensures Escape(a + b) == Escape(a) + Escape(b)
  {
    if a == [] {
      assert a + b == b;
    } else {
      assert (a + b)[1..] == a[1..] + b;
      EscapeSplit(a[1..], b);
    }
  }

  lemma {:induction false} EscapeNoNul(w: Bytes)
    requires NoNul(w)
    ensures NoNul(Escape(w))
  {
    if w != [] { EscapeNoNul(w[1..]); }
  }

  lemma {:induction false} FirstNul(w: Bytes) returns (a: Bytes, b: Bytes)
    requires !NoNul(w)
    ensures w == a + [NUL] + b && NoNul(a) && |a| < |w|
  {
    if w[0] == NUL {
      a, b := [], w[1..];
    } else {
      assert w == [w[0]] + w[1..];
      a, b := FirstNul(w[1..]);
      a := [w[0]] + a;
    }
  }

  lemma ShowNoNul(p: Pair)
    requires PairNoNul(p)
    ensures NoNul(Show(p))
  {
    EscapeNoNul(p.key);
    if p.val.Some? { EscapeNoNul(p.val.value); }
  }

  lemma {:induction false} PrintNoNul(ps: seq<Pair>, n: nat)
    requires Clean(ps, n)
    ensures NoNul(PrintTo(ps, n))
  {
    if n > 0 {
      PrintNoNul(ps, n - 1);
      ShowNoNul(ps[n - 1]);
    }
  }

  /** A quoted string with a NUL byte: the C string ends inside the quotes. */
  lemma QuotedCut(w: Bytes, more: Bytes) returns (a: Bytes)
    requires !NoNul(w)
    ensures NoNul(a) && |a| < |w| && CString(Quoted(w) + more) == [QUOTE] + Escape(a)
  {
    var b;
    a, b := FirstNul(w);
    EscapeAround(a, b);
    EscapeNoNul(a);
    var front, tail := [QUOTE] + Escape(a), [NUL] + (Escape(b) + [QUOTE] + more);
    RegroupQuoted([QUOTE], Escape(a), [NUL], Escape(b), more);
    CStringOf(front, tail);
  }

  lemma EscapeAround(a: Bytes, b: Bytes)
    ensures Escape(a + [NUL] + b) == Escape(a) + [NUL] + Escape(b)
  {
    EscapeSplit(a + [NUL], b);
    EscapeSplit(a, [NUL]);
    assert Escape([NUL]) == [NUL] + Escape([]);
  }

  lemma RegroupQuoted(q: Bytes, a: Bytes, n: Bytes, b: Bytes, more: Bytes)
    ensures q + (a + n + b) + q + more == (q + a) + (n + (b + q + more))
  {
  }

  /** What is left of a pair with a NUL byte: it breaks off inside the quotes of the key or of the value. */
  ghost predicate Broken(p: Pair, b: Bytes, a: Bytes) {
    NoNul(a) && |a| <= MAX_WORD && if !NoNul(p.key) then b == [QUOTE] + Escape(a)
                else b == Quoted(p.key) + [EQUALS, GREATER] + ([QUOTE] + Escape(a))
  }

  lemma ShowCut(p: Pair, more: Bytes) returns (a: Bytes)
    requires !PairNoNul(p) && Short(p)
    ensures Broken(p, CString(Show(p) + more), a)
  {
    var front := Quoted(p.key) + [EQUALS, GREATER];
    if !NoNul(p.key) {
      assert Show(p) + more == Quoted(p.key) + ([EQUALS, GREATER] + ShowVal(p.val) + more);
      a := QuotedCut(p.key, [EQUALS, GREATER] + ShowVal(p.val) + more);
    } else {
      EscapeNoNul(p.key);
      assert Show(p) + more == front + (ShowVal(p.val) + more);
      CStringOf(front, ShowVal(p.val) + more);
      a := QuotedCut(p.val.value, more);
    }
  }

  lemma BrokenKeyParses(t: Bytes, o: nat, a: Bytes, acc: seq<Pair>)
    requires NoNul(a) && |a| <= MAX_WORD && Here(t, o, [QUOTE] + Escape(a)) && o + 1 + |Escape(a)| == |t|
    ensures ParseFrom(t, o, WaitKey, [], acc) == UnexpectedEnd
  {
    BrokenQuote(t, o, a, false);
  }

  lemma BrokenValueParses(t: Bytes, o: nat, key: Bytes, a: Bytes, acc: seq<Pair>)
    requires NoNul(a) && |a| <= MAX_WORD && Here(t, o, [QUOTE] + Escape(a)) && o + 1 + |Escape(a)| == |t|
    ensures ParseFrom(t, o, WaitVal, key, acc) == UnexpectedEnd
  {
    BrokenQuote(t, o, a, true);
  }

  lemma BrokenParses(t: Bytes, o: nat, p: Pair, b: Bytes, a: Bytes, acc: seq<Pair>)
    requires Broken(p, b, a) && Here(t, o, b) && o + |b| == |t| && Short(p) && (NoNul(p.key) ==> |acc| < MAX_PAIRS)
    ensures ParseFrom(t, o, WaitKey, [], acc) == UnexpectedEnd
  {
    if !NoNul(p.key) {
      BrokenKeyParses(t, o, a, acc);
    } else {
      BrokenAfterKey(t, o, p.key, a, acc);
    }
  }

  lemma BrokenAfterKey(t: Bytes, o: nat, key: Bytes, a: Bytes, acc: seq<Pair>)
    requires NoNul(key) && |key| <= MAX_WORD && NoNul(a) && |a| <= MAX_WORD && |acc| < MAX_PAIRS
    requires var b := Quoted(key) + [EQUALS, GREATER] + ([QUOTE] + Escape(a)); Here(t, o, b) && o + |b| == |t|
    ensures ParseFrom(t, o, WaitKey, [], acc) == UnexpectedEnd
  {
    HereParts(t, o, Quoted(key) + [EQUALS, GREATER], [QUOTE] + Escape(a));
    KeyParses(t, o, key, acc);
    BrokenValueParses(t, o + |Quoted(key)| + 2, key, a, acc);
  }

  lemma {:induction false} ConcatSplit(items: seq<Bytes>, n: nat, m: nat) returns (tail: Bytes)
    requires n <= m <= |items|
    ensures ConcatTo(items, m) == ConcatTo(items, n) + tail
  {
    if n == m {
      tail := [];
    } else {
      tail := ConcatSplit(items, n, m - 1);
      assert ConcatTo(items, n) + tail + items[m - 1] == ConcatTo(items, n) + (tail + items[m - 1]);
      tail := tail + items[m - 1];
    }
  }

  lemma {:induction false} ItemsNoNul(ps: seq<Pair>, items: seq<Bytes>, n: nat)
    requires n <= |ps| == |items| && Ready(ps, items, n)
    ensures NoNul(ConcatTo(items, n))
  {
    if n > 0 {
      ReadyStep(ps, items, n);
      ItemsNoNul(ps, items, n - 1);
      ItemNoNul(ps, items, n - 1);
      JoinNoNul(ConcatTo(items, n - 1), items[n - 1]);
    }
  }

  lemma ItemNoNul(ps: seq<Pair>, items: seq<Bytes>, k: nat)
    requires ItemReady(ps, items, k)
    ensures NoNul(items[k])
  {
    ShowNoNul(ps[k]);
    JoinNoNul(Show(ps[k]), [COMMA, SPACE]);
  }

  lemma JoinNoNul(a: Bytes, b: Bytes)
    requires NoNul(a) && NoNul(b)
    ensures NoNul(a + b)
  {
  }

  /** The text up to the first pair with a NUL byte, and what is left of that one. */
  lemma CutText(p: Pair, front: Bytes, sep: Bytes, tail: Bytes) returns (b: Bytes, a: Bytes)
    requires NoNul(front) && !PairNoNul(p) && Short(p)
    ensures Broken(p, b, a) && CString(front + (Show(p) + sep) + tail) == front + b
  {
    Reassociate(front, Show(p), sep, tail);
    b := CString(Show(p) + (sep + tail));
    CStringOf(front, Show(p) + (sep + tail));
    a := ShowCut(p, sep + tail);
  }

  lemma Reassociate(a: Bytes, b: Bytes, c: Bytes, d: Bytes)
    ensures a + (b + c) + d == a + (b + (c + d))
  {
  }

  lemma BrokenTextFails(t: Bytes, ps: seq<Pair>, items: seq<Bytes>, n: nat, b: Bytes, a: Bytes)
    requires n < |ps| == |items| && Ready(ps, items, n) && Broken(ps[n], b, a) && Short(ps[n])
    requires t == ConcatTo(items, n) + b && (NoNul(ps[n].key) ==> n < MAX_PAIRS)
    ensures Parse(t) == UnexpectedEnd
  {
    assert t[..|ConcatTo(items, n)|] == ConcatTo(items, n) && t[..|t|] == t;
    HereInPrefix(t, ConcatTo(items, n), b);
    ParsesUpTo(t, ps, items, n);
    BrokenParses(t, |ConcatTo(items, n)|, ps[n], b, a, ps[..n]);
  }

  function Separator(ps: seq<Pair>, n: nat): Bytes { if n + 1 < |ps| then [COMMA, SPACE] else [] }

  lemma ItemIs(ps: seq<Pair>, n: nat)
    requires n < |ps|
    ensures Items(ps)[n] == Show(ps[n]) + Separator(ps, n)
  {
    assert Items(ps)[n] == Item(ps, n);
  }

  lemma NulFails(ps: seq<Pair>, n: nat)
    requires n < |ps| && n <= MAX_PAIRS && Clean(ps, n) && !PairNoNul(ps[n]) && AllShort(ps)
    requires NoNul(ps[n].key) ==> n < MAX_PAIRS
    ensures Parse(CString(Print(ps))) == UnexpectedEnd
  {
    var items := Items(ps);
    CleanReady(ps, n);
    PrintIsConcat(ps);
    ItemIs(ps, n);
    NulTextFails(ps, items, n, Separator(ps, n));
  }

  lemma ConcatAround(items: seq<Bytes>, n: nat, m: nat) returns (tail: Bytes)
    requires n < m <= |items|
    ensures ConcatTo(items, m) == ConcatTo(items, n) + items[n] + tail
  {
    tail := ConcatSplit(items, n + 1, m);
  }

  lemma NulTextFails(ps: seq<Pair>, items: seq<Bytes>, n: nat, sep: Bytes)
    requires n < |ps| == |items| && Ready(ps, items, n) && !PairNoNul(ps[n]) && Short(ps[n])
    requires items[n] == Show(ps[n]) + sep && (NoNul(ps[n].key) ==> n < MAX_PAIRS)
    ensures Parse(CString(ConcatTo(items, |ps|))) == UnexpectedEnd
  {
    ItemsNoNul(ps, items, n);
    var tail := ConcatAround(items, n, |ps|);
    var b, a := CutText(ps[n], ConcatTo(items, n), sep, tail);
    BrokenTextFails(ConcatTo(items, n) + b, ps, items, n, b, a);
  }

  // Texts with too many pairs

  /** The text holds more whole keys than the array of pairs takes. */
  ghost predicate TooMany(ps: seq<Pair>) {
    |ps| > MAX_PAIRS && Clean(ps, MAX_PAIRS) && NoNul(ps[MAX_PAIRS].key)
  }

  lemma FullParses(t: Bytes, o: nat, key: Bytes, acc: seq<Pair>)
    requires Here(t, o, Quoted(key)) && NoNul(key) && |key| <= MAX_WORD && |acc| == MAX_PAIRS
    ensures ParseFrom(t, o, WaitKey, [], acc) == OutOfMemory
  {
    QuotedScans(t, o, key, false);
  }

  lemma FullTextFails(t: Bytes, ps: seq<Pair>, items: seq<Bytes>, n: nat, rest: Bytes)
    requires MAX_PAIRS == n < |ps| == |items| && Ready(ps, items, n) && NoNul(ps[n].key) && Short(ps[n])
    requires t == ConcatTo(items, n) + Quoted(ps[n].key) + rest
    ensures Parse(t) == OutOfMemory
  {
    var front, key := ConcatTo(items, n), Quoted(ps[n].key);
    assert t[..|front|] == front && t[..|front + key|] == front + key;
    HereInPrefix(t, front, key);
    ParsesUpTo(t, ps, items, n);
    FullParses(t, |front|, ps[n].key, ps[..n]);
  }

  lemma KeyFirst(front: Bytes, key: Bytes, m: Bytes, v: Bytes, sep: Bytes, tail: Bytes)
    ensures front + (key + m + v + sep) + tail == (front + key) + (m + v + sep + tail)
  {
  }

  /** What is cut from the text leaves the first keys alone. */
  lemma KeysStay(p: Pair, front: Bytes, sep: Bytes, tail: Bytes) returns (rest: Bytes)
    requires NoNul(front) && NoNul(p.key)
    ensures CString(front + (Show(p) + sep) + tail) == front + Quoted(p.key) + rest
  {
    KeyFirst(front, Quoted(p.key), [EQUALS, GREATER], ShowVal(p.val), sep, tail);
    EscapeNoNul(p.key);
    var more := [EQUALS, GREATER] + ShowVal(p.val) + sep + tail;
    CStringOf(front + Quoted(p.key), more);
    rest := CString(more);
  }

  lemma TooManyFails(ps: seq<Pair>)
    requires TooMany(ps) && AllShort(ps)
    ensures Parse(CString(Print(ps))) == OutOfMemory
  {
    var n := MAX_PAIRS;
    CleanReady(ps, n);
    PrintIsConcat(ps);
    ItemIs(ps, n);
    ManyTextFails(ps, Items(ps), n, Separator(ps, n));
  }

  lemma ManyTextFails(ps: seq<Pair>, items: seq<Bytes>, n: nat, sep: Bytes)
    requires MAX_PAIRS == n < |ps| == |items| && Ready(ps, items, n) && NoNul(ps[n].key) && Short(ps[n])
    requires items[n] == Show(ps[n]) + sep
    ensures Parse(CString(ConcatTo(items, |ps|))) == OutOfMemory
  {
    ItemsNoNul(ps, items, n);
    var tail := ConcatAround(items, n, |ps|);
    var rest := KeysStay(ps[n], ConcatTo(items, n), sep, tail);
    FullTextFails(ConcatTo(items, n) + Quoted(ps[n].key) + rest, ps, items, n, rest);
  }

  lemma FirstUnclean(ps: seq<Pair>, n: nat) returns (k: nat)
    requires n <= |ps| && !Clean(ps, n)
    ensures k < n && Clean(ps, k) && !PairNoNul(ps[k])
  {
    if Clean(ps, n - 1) {
      k := n - 1;
    } else {
      k := FirstUnclean(ps, n - 1);
    }
  }

  // The sort

  lemma {:induction false} OnceOnly(ps: seq<Pair>, p: Pair)
    requires Sorted(ps)
    ensures multiset(ps)[p] <= 1
  {
    if ps != [] {
      var n := |ps| - 1;
      var front := ps[..n];
      assert ps == front + [ps[n]];
      OnceOnly(front, p);
      if ps[n] == p { assert p !in front; }
    }
  }

  lemma TwiceIn(s: seq<Pair>, i: nat, j: nat)
    requires i < j < |s| && s[i] == s[j]
    ensures multiset(s)[s[i]] >= 2
  {
    assert s == s[..j] + s[j..];
    assert s[i] in s[..j] && s[j] in s[j..];
  }

  /** Pairs in canonical order sort to themselves. */
  lemma SortOfSorted(ps: seq<Pair>, s: seq<Pair>)
    requires Sorted(ps) && IsSortOf(s, ps)
    ensures Dedup(s) == ps
  {
    forall i, j | 0 <= i < j < |s| ensures KeyLt(s[i].key, s[j].key) {
      assert s[i] in multiset(ps) && s[j] in multiset(ps);
      if s[i].key == s[j].key {
        var k, l :| 0 <= k < |ps| && 0 <= l < |ps| && ps[k] == s[i] && ps[l] == s[j];
        assert k == l;
        TwiceIn(s, i, j);
        OnceOnly(ps, s[i]);
      }
    }
    forall p ensures p in s <==> p in ps { assert p in multiset(s) <==> p in multiset(ps); }
    SortedUnique(s, ps);
    DedupSorted(s);
  }

  lemma ShareOf(ps: seq<Pair>, i: nat)
    requires i < |ps|
    ensures Reckon(ps[i]) <= BufLen(ps, |ps|)
  {
    SharesUpTo(Reckons(ps), i + 1, |ps|);
  }

  /** Where the text fits its buffer, every word fits the parser's. */
  lemma SizesShort(ps: seq<Pair>)
    requires BufLen(ps, |ps|) <= MAX_ALLOC
    ensures AllShort(ps)
  {
    forall i | 0 <= i < |ps| ensures Short(ps[i]) { ShareOf(ps, i); }
  }

  lemma CleanText(ps: seq<Pair>)
    requires Clean(ps, |ps|)
    ensures CString(Print(ps)) == Print(ps)
  {
    PrintNoNul(ps, |ps|);
    CStringOf(Print(ps), []);
    assert Print(ps) + [] == Print(ps);
  }

  lemma SortedIsSorted(ps: seq<Pair>)
    requires Sorted(ps)
    ensures IsSortOf(ps, ps)
  {
  }

  lemma ManyClean(ps: seq<Pair>)
    requires Clean(ps, |ps|)
    ensures TooMany(ps) <==> |ps| > MAX_PAIRS
  {
  }

  lemma CleanReads(ps: seq<Pair>, r: Input)
    requires Sorted(ps) && Size(ps) <= MAX_ALLOC && AllShort(ps) && Clean(ps, |ps|) && |ps| <= MAX_PAIRS
    ensures Reads(CString(Print(ps)), r) <==> r == Value(Layout(ps))
  {
    CleanText(ps);
    PrintParses(ps);
    SortedIsSorted(ps);
    assert Made(ps) == Value(Layout(ps)) by { DedupSorted(ps); }
    if Reads(Print(ps), r) {
      var s :| IsSortOf(s, ps) && r == Made(s);
      SortOfSorted(ps, s);
    }
  }

  lemma NulReads(ps: seq<Pair>)
    requires AllShort(ps) && !Clean(ps, |ps|) && !TooMany(ps)
    ensures Parse(CString(Print(ps))) == UnexpectedEnd
  {
    var n := FirstUnclean(ps, |ps|);
    assert n > MAX_PAIRS || (n == MAX_PAIRS && NoNul(ps[n].key)) ==> TooMany(ps);
    NulFails(ps, n);
  }

  /** What input makes of the text of `ps`. */
  ghost function ReadBackAs(ps: seq<Pair>): Input
  {
    if TooMany(ps) then Failed(OutOfMemory)
    else if Clean(ps, |ps|) then Value(Layout(ps))
    else Failed(UnexpectedEnd)
  }

  lemma TextReads(ps: seq<Pair>, r: Input)
    requires Sorted(ps) && Size(ps) <= MAX_ALLOC && BufLen(ps, |ps|) <= MAX_ALLOC
    ensures Reads(CString(Print(ps)), r) <==> r == ReadBackAs(ps)
  {
    SizesShort(ps);
    if TooMany(ps) {
      TooManyFails(ps);
    } else if Clean(ps, |ps|) {
      ManyClean(ps);
      CleanReads(ps, r);
    } else {
      NulReads(ps);
    }
  }

  /** Output gives a text, of which input may make `r`. */
  ghost predicate OutAndIn(ps: seq<Pair>, r: Input) {
    Output(ps).Some? && Reads(CString(Output(ps).value), r)
  }

  /**
   Whatever the sort does, output followed by input gives the identical value exactly when the reckoned
   buffer is within the allocation limit, there is no NUL byte and there are at most 2^24 pairs. Beyond the
   limit output fails. Otherwise input runs out of memory if more than 2^24 whole keys stand before the
   first NUL byte, and refuses the text as ending unexpectedly if there is one before that.
   */
  lemma RoundTripIff(ps: seq<Pair>, r: Input)
    requires Sorted(ps) && Size(ps) <= MAX_ALLOC
    ensures OutAndIn(ps, r) <==> BufLen(ps, |ps|) <= MAX_ALLOC && r == ReadBackAs(ps)
    ensures OutAndIn(ps, Value(Layout(ps))) <==>
            BufLen(ps, |ps|) <= MAX_ALLOC && Clean(ps, |ps|) && |ps| <= MAX_PAIRS
  {
    if BufLen(ps, |ps|) <= MAX_ALLOC {
      TextReads(ps, r);
      TextReads(ps, Value(Layout(ps)));
    }
    if Clean(ps, |ps|) { ManyClean(ps); }
  }
}
