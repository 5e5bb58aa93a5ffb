/** Texts at the limits of the hstore parser's buffers (contrib/hstore/hstore_io.c:42-51, 183-206). */
module HstoreLimits {
  import opened Buffers
  import opened Lexicographic
  import opened Hstore
  import opened HstoreParser
  import opened HstoreIO
  import opened HstoreRoundTrip
  import opened Wrappers

  // One word too long

  lemma {:induction false} EscapeOverflows(t: Bytes, i: nat, w: Bytes, acc: Bytes, ignoreeq: bool)
    requires Here(t, i, Escape(w)) && NoNul(w) && |acc| <= MAX_WORD < |acc| + |w|
    ensures Scan(t, i, InQuotes, acc, true, ignoreeq) == WordTooBig
    decreases |w|
  {
    var c, rest := w[0], w[1..];
    assert w == [c] + rest;
    EscapeHere(t, i, c, rest);
    if |acc| == MAX_WORD {
      OneOverflows(t, i, c, acc, ignoreeq);
    } else {
      EscapeOneScans(t, i, c, acc, ignoreeq);
      EscapeOverflows(t, i + |EscapeOne(c)|, rest, acc + [c], ignoreeq);
    }
  }

  lemma OneOverflows(t: Bytes, i: nat, c: Byte, acc: Bytes, ignoreeq: bool)
    requires Here(t, i, EscapeOne(c)) && c != NUL && |acc| == MAX_WORD
    ensures Scan(t, i, InQuotes, acc, true, ignoreeq) == WordTooBig
  {
    if c == QUOTE || c == BACKSLASH {
      HereParts(t, i, [BACKSLASH], [c]);
      HereByte(t, i, BACKSLASH);
      HereByte(t, i + 1, c);
      assert Scan(t, i, InQuotes, acc, true, ignoreeq) == Scan(t, i + 1, QuotedEscape, acc, true, ignoreeq);
    } else {
      HereByte(t, i, c);
    }
  }

  /** A quoted word is read if and only if it has at most 2^29 - 1 bytes; its buffer is refused beyond. */
  lemma QuotedWordIff(t: Bytes, i: nat, w: Bytes, ignoreeq: bool)
    requires Here(t, i, Quoted(w)) && NoNul(w)
    ensures var s := Scan(t, i, Waiting, [], false, ignoreeq);
      if |w| <= MAX_WORD then s == Word(w, true, i + |Quoted(w)| - 1) else s == WordTooBig
  {
    if |w| <= MAX_WORD {
      QuotedScans(t, i, w, ignoreeq);
    } else {
      HereParts(t, i, [QUOTE] + Escape(w), [QUOTE]);
      HereParts(t, i, [QUOTE], Escape(w));
      HereByte(t, i, QUOTE);
      EscapeOverflows(t, i + 1, w, [], ignoreeq);
    }
  }

  // One pair too many

  function Pow255(n: nat): nat { if n == 0 then 1 else 255 * Pow255(n - 1) }

  /** The number `i` in `n` digits, none of which is the NUL byte. */
  function Numbered(i: nat, n: nat): (key: Bytes)
    ensures |key| == n && NoNul(key)
  {
    if n == 0 then [] else Numbered(i / 255, n - 1) + [i % 255 + 1]
  }

  lemma DigitOrder(i: nat, j: nat, p: nat)
    requires i < j < 255 * p
    ensures i / 255 < j / 255 < p || (i / 255 == j / 255 < p && i % 255 < j % 255)
  {
  }

  lemma {:induction false} NumberedOrder(i: nat, j: nat, n: nat)
    requires i < j < Pow255(n)
    ensures Lt(Numbered(i, n), Numbered(j, n))
  {
    var a, b := Numbered(i / 255, n - 1), Numbered(j / 255, n - 1);
    DigitOrder(i, j, Pow255(n - 1));
    if i / 255 == j / 255 {
      LastDecides(a, i % 255 + 1, j % 255 + 1);
    } else {
      NumberedOrder(i / 255, j / 255, n - 1);
      FrontDecides(a, b, i % 255 + 1, j % 255 + 1);
    }
  }

  lemma LastDecides(a: Bytes, x: Byte, y: Byte)
    requires x < y
    ensures Lt(a + [x], a + [y])
  {
    assert (a + [x])[..|a|] == (a + [y])[..|a|];
    CommonIs(a + [x], a + [y], |a|);
  }

  lemma FrontDecides(a: Bytes, b: Bytes, x: Byte, y: Byte)
    requires Lt(a, b) && |a| == |b|
    ensures Lt(a + [x], b + [y])
  {
    var n := Common(a, b);
    assert a[..|a|] == a && b[..|b|] == b;
    assert (a + [x])[..n] == a[..n] && (b + [y])[..n] == b[..n];
    CommonIs(a + [x], b + [y], n);
  }

  function NullPair(i: nat): Pair { Pair(Numbered(i, 4), None) }

  function NullPairs(n: nat): (ps: seq<Pair>)
    ensures |ps| == n && forall i :: 0 <= i < n ==> ps[i] == NullPair(i)
  {
    seq(n, i requires 0 <= i < n => NullPair(i))
  }

  lemma NullPairsSorted(n: nat)
    requires n <= Pow255(4)
    ensures Sorted(NullPairs(n))
  {
    forall i, j | 0 <= i < j < n ensures KeyLt(Numbered(i, 4), Numbered(j, 4)) {
      NumberedOrder(i, j, 4);
      SameLengthOrder(Numbered(i, 4), Numbered(j, 4));
    }
  }

  lemma {:induction false} NullSum(n: nat, m: nat)
    requires m <= n
    ensures Sum(NullPairs(n), m) == 4 * m && BufLen(NullPairs(n), m) == 18 * m
  {
    if m > 0 { NullSum(n, m - 1); }
  }

  /** The smallest number of pairs that cannot be read back: output gives a text, and input always fails on it. */
  lemma OnePairTooMany(r: Input)
    ensures var ps := NullPairs(MAX_PAIRS + 1);
      && Sorted(ps) && Size(ps) <= MAX_ALLOC && BufLen(ps, |ps|) <= MAX_ALLOC && Clean(ps, |ps|)
      && (OutAndIn(ps, r) <==> r == Failed(OutOfMemory))
  {
    var n := MAX_PAIRS + 1;
    assert Pow255(2) == 65025 && Pow255(4) == 4228250625;
    NullPairsSorted(n);
    NullSum(n, n);
    RoundTripIff(NullPairs(n), r);
  }
}
