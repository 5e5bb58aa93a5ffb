/**
 The lossy key compression of intarray's GiST opclass (contrib/intarray/_int_gist.c, _int_tool.c):
 an array of 200 or more elements becomes 100 ranges by closing the smallest gap again and again.
 */
module IntRanges {

  const MAX_NUM_RANGE: nat := 100
  const INT_MIN: int := -0x8000_0000
  const INT_MAX: int := 0x7fff_ffff

  predicate Int32(x: int) { INT_MIN <= x <= INT_MAX }

  /** The C subtraction of two int32 values, whose difference may not fit and then wraps around. */
  function Sub32(x: int, y: int): int {
    if x - y > INT_MAX then x - y - 0x1_0000_0000
    else if x - y < INT_MIN then x - y + 0x1_0000_0000
    else x - y
  }

  ghost predicate Increasing(a: seq<int>) {
    forall i, j :: 0 <= i < j < |a| ==> a[i] < a[j]
  }

  ghost predicate Key(a: seq<int>) {
    Increasing(a) && forall i :: 0 <= i < |a| ==> Int32(a[i])
  }

  /** The gap in front of element `i`, as the code computes it. */
  function Gap(a: seq<int>, i: int): int
    requires 0 < i < |a|
  {
    Sub32(a[i], a[i - 1])
  }

  /** A choice of gaps to keep open: increasing element numbers. */
  ghost predicate Choice(a: seq<int>, ks: seq<int>) {
    Increasing(ks) && forall j :: 0 <= j < |ks| ==> 0 < ks[j] < |a|
  }

  /** `d` lists the bounds of the ranges when exactly the gaps `ks` stay open. */
  ghost predicate Flat(a: seq<int>, ks: seq<int>, d: seq<int>) {
    && a != [] && Choice(a, ks) && |d| == 2 * |ks| + 2
    && d[0] == a[0] && d[|d| - 1] == a[|a| - 1]
    && forall j :: 0 <= j < |ks| ==> d[2 * j + 1] == a[ks[j] - 1] && d[2 * j + 2] == a[ks[j]]
  }

  /** No closed gap is wider than an open one. */
  ghost predicate Greedy(a: seq<int>, ks: seq<int>) {
    Choice(a, ks) && forall i, j :: 0 < i < |a| && i !in ks && 0 <= j < |ks| ==> Gap(a, i) <= Gap(a, ks[j])
  }

  lemma ThreeGaps(a: seq<int>, ks: seq<int>)
    requires Key(a) && Choice(a, ks) && |ks| >= 3
    ensures Gap(a, ks[0]) < INT_MAX || Gap(a, ks[1]) < INT_MAX || Gap(a, ks[2]) < INT_MAX
  {
    assert a[ks[0] - 1] < a[ks[0]];
    assert ks[0] <= ks[1] - 1 && ks[1] <= ks[2] - 1;
    assert a[ks[0]] <= a[ks[1] - 1] < a[ks[1]] <= a[ks[2] - 1] < a[ks[2]];
  }

  /** The bounds around a gap, in the flat form. */
  lemma FlatGap(a: seq<int>, ks: seq<int>, d: seq<int>, j: nat)
    requires Flat(a, ks, d) && j < |ks|
    ensures Sub32(d[2 * j + 2], d[2 * j + 1]) == Gap(a, ks[j])
  {
  }

  /** Gap number `c` is a smallest open one. */
  ghost predicate Smallest(a: seq<int>, ks: seq<int>, c: nat) {
    Choice(a, ks) && c < |ks| && forall j :: 0 <= j < |ks| ==> Gap(a, ks[c]) <= Gap(a, ks[j])
  }

  /** None of the first `n` open gaps is smaller than `min`. */
  ghost predicate AtMost(min: int, a: seq<int>, ks: seq<int>, n: nat) {
    Choice(a, ks) && n <= |ks| && forall j :: 0 <= j < n ==> min <= Gap(a, ks[j])
  }

  lemma AtMostNext(min: int, gap: int, a: seq<int>, ks: seq<int>, n: nat)
    requires AtMost(min, a, ks, n) && n < |ks| && gap == Gap(a, ks[n])
    ensures AtMost(if min > gap then gap else min, a, ks, n + 1)
  {
  }

  /** The gap the inner loop picks: the first smallest one. */
  method SmallestGap(dr: array<int>, len: nat, ghost a: seq<int>, ghost ks: seq<int>)
    returns (cand: nat, ghost c: nat)
    requires len <= dr.Length && Key(a) && Flat(a, ks, dr[..len]) && |ks| >= 3
    ensures cand == 2 * c + 2 && Smallest(a, ks, c)
  {
    var min := INT_MAX;
    cand, c := 1, 0;
    var i := 2;
    ghost var n := 0;
    while i < len
      invariant i == 2 * n + 2 && n <= |ks| && min <= INT_MAX
      invariant min < INT_MAX ==> cand == 2 * c + 2 && c < n && min == Gap(a, ks[c])
      invariant AtMost(min, a, ks, n)
    {
      FlatGap(a, ks, dr[..len], n);
      var gap := Sub32(dr[i], dr[i - 1]);
      AtMostNext(min, gap, a, ks, n);
      if min > gap {
        min, cand, c := gap, i, n;
      }
      i, n := i + 2, n + 1;
    }
    ThreeGaps(a, ks);
  }

  ghost function Without(ks: seq<int>, c: nat): seq<int>
    requires c < |ks|
  {
    ks[..c] + ks[c + 1..]
  }

  lemma ChoiceWithout(a: seq<int>, ks: seq<int>, c: nat)
    requires Choice(a, ks) && c < |ks|
    ensures Choice(a, Without(ks, c))
    ensures forall i :: i in Without(ks, c) <==> i in ks && i != ks[c]
  {
    var w := Without(ks, c);
    forall i ensures i in w <==> i in ks && i != ks[c] {
      if i in ks && i != ks[c] {
        var j :| 0 <= j < |ks| && ks[j] == i;
        assert i == w[if j < c then j else j - 1];
      }
    }
  }

  lemma FlatWithout(a: seq<int>, ks: seq<int>, d: seq<int>, c: nat)
    requires Flat(a, ks, d) && c < |ks|
    ensures Flat(a, Without(ks, c), d[..2 * c + 1] + d[2 * c + 3..])
  {
    ChoiceWithout(a, ks, c);
    var w, d' := Without(ks, c), d[..2 * c + 1] + d[2 * c + 3..];
    forall j | 0 <= j < |w| ensures d'[2 * j + 1] == a[w[j] - 1] && d'[2 * j + 2] == a[w[j]] {
      if j < c {
        assert w[j] == ks[j];
      } else {
        assert w[j] == ks[j + 1];
      }
    }
  }

  lemma GreedyWithout(a: seq<int>, ks: seq<int>, c: nat)
    requires Greedy(a, ks) && Smallest(a, ks, c)
    ensures Greedy(a, Without(ks, c))
  {
    ChoiceWithout(a, ks, c);
    var w := Without(ks, c);
    forall i, j | 0 < i < |a| && i !in w && 0 <= j < |w| ensures Gap(a, i) <= Gap(a, w[j]) {
      assert w[j] in w;
      var k :| 0 <= k < |ks| && ks[k] == w[j];
      assert i in ks ==> i == ks[c];
    }
  }

  /** Doubles every element in place, last one first. */
  method Double(dr: array<int>, len: nat)
    requires dr.Length == 2 * len
    modifies dr
    ensures forall k :: 0 <= k < dr.Length ==> dr[k] == old(dr[k / 2])
  {
    var i := len;
    while i > 0
      invariant 0 <= i <= len
      invariant forall k :: 0 <= k < i ==> dr[k] == old(dr[k])
      invariant forall k :: 2 * i <= k < dr.Length ==> dr[k] == old(dr[k / 2])
    {
      i := i - 1;
      var v := dr[i];
      dr[2 * i + 1] := v;
      dr[2 * i] := v;
    }
  }

  lemma AllGapsOpen(a: seq<int>, d: seq<int>) returns (ks: seq<int>)
    requires a != [] && |d| == 2 * |a| && forall k :: 0 <= k < |d| ==> d[k] == a[k / 2]
    ensures |ks| == |a| - 1 && Greedy(a, ks) && Flat(a, ks, d)
  {
    ks := seq(|a| - 1, i => i + 1);
    forall i | 0 < i < |a| ensures i in ks { assert ks[i - 1] == i; }
    forall j | 0 <= j < |ks| ensures d[2 * j + 1] == a[ks[j] - 1] && d[2 * j + 2] == a[ks[j]] {
      assert (2 * j + 1) / 2 == j && (2 * j + 2) / 2 == j + 1;
    }
  }

  /** Closes the gap in front of the range at `cand`: memmove over the two bounds of the gap. */
  method CloseGap(dr: array<int>, len: nat, cand: nat)
    requires 2 <= cand < len <= dr.Length
    modifies dr
    ensures dr[..len - 2] == old(dr[..len])[..cand - 1] + old(dr[..len])[cand + 1..]
  {
    forall k | cand - 1 <= k < len - 2 {
      dr[k] := dr[k + 2];
    }
  }

  /** Compresses an internal key. */
  method Compress(key: seq<int>) returns (r: seq<int>, ghost ks: seq<int>)
    requires Key(key)
    ensures |key| < 2 * MAX_NUM_RANGE ==> r == key
    ensures |key| >= 2 * MAX_NUM_RANGE ==> |ks| == MAX_NUM_RANGE - 1 && Greedy(key, ks) && Flat(key, ks, r)
  {
    var len := |key|;
    if len < 2 * MAX_NUM_RANGE {
      return key, [];
    }
    var dr := new int[2 * len](i => if 0 <= i < |key| then key[i] else 0);
    Double(dr, len);
    len := 2 * len;
    assert dr[..len] == dr[..];
    ks := AllGapsOpen(key, dr[..len]);
    while len > 2 * MAX_NUM_RANGE
      invariant 2 * MAX_NUM_RANGE <= len <= dr.Length && len == 2 * |ks| + 2
      invariant Flat(key, ks, dr[..len]) && Greedy(key, ks)
    {
      ks := CloseSmallest(dr, len, key, ks);
      len := len - 2;
    }
    r := dr[..len];
  }

  method CloseSmallest(dr: array<int>, len: nat, ghost a: seq<int>, ghost ks: seq<int>) returns (ghost ks': seq<int>)
    requires len <= dr.Length && len == 2 * |ks| + 2 && |ks| >= 3
    requires Key(a) && Flat(a, ks, dr[..len]) && Greedy(a, ks)
    modifies dr
    ensures |ks'| == |ks| - 1 && Flat(a, ks', dr[..len - 2]) && Greedy(a, ks')
  {
    var cand;
    ghost var c;
    cand, c := SmallestGap(dr, len, a, ks);
    ghost var d := dr[..len];
    CloseGap(dr, len, cand);
    ks' := Without(ks, c);
    assert Greedy(a, ks') by { GreedyWithout(a, ks, c); }
    assert Flat(a, ks', dr[..len - 2]) by { FlatWithout(a, ks, d, c); }
  }
}
