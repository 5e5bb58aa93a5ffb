/** Byte strings and the order that memcmp and the lengths give them, on sequences of integers. */
module Lexicographic {

  type Byte = x: int | 0 <= x < 256

  type Bytes = seq<Byte>

  /** The length of the common prefix. */
  ghost function Common(a: seq<int>, b: seq<int>): (n: nat)
    ensures n <= |a| && n <= |b| && a[..n] == b[..n]
    ensures n < |a| && n < |b| ==> a[n] != b[n]
  {
    if a == [] || b == [] || a[0] != b[0] then 0
    else
      var n := Common(a[1..], b[1..]);
      assert a[..n + 1] == [a[0]] + a[1..][..n] && b[..n + 1] == [b[0]] + b[1..][..n];
      n + 1
  }

  /** The order of byteacmp: by the first byte that differs, a proper prefix first. */
  ghost predicate Le(a: seq<int>, b: seq<int>) {
    var n := Common(a, b);
    n == |a| || (n < |b| && a[n] < b[n])
  }

  ghost predicate Lt(a: seq<int>, b: seq<int>) { Le(a, b) && a != b }

  ghost predicate Prefix(p: seq<int>, a: seq<int>) { |p| <= |a| && a[..|p|] == p }

  lemma CommonIs(a: seq<int>, b: seq<int>, n: nat)
    requires n <= |a| && n <= |b| && a[..n] == b[..n]
    ensures n <= Common(a, b)
    ensures n < |a| && n < |b| && a[n] != b[n] ==> n == Common(a, b)
    ensures (n == |a| || n == |b|) ==> n == Common(a, b)
  {
    var m := Common(a, b);
    if n < m { assert a[n] == a[..m][n] == b[..m][n] == b[n]; }
  }

  lemma CommonSymmetric(a: seq<int>, b: seq<int>)
    ensures Common(a, b) == Common(b, a)
  {
    CommonIs(b, a, Common(a, b));
  }

  lemma LeTotal(a: seq<int>, b: seq<int>)
    ensures Le(a, b) || Le(b, a)
  {
    CommonSymmetric(a, b);
  }

  lemma LeAntisymmetric(a: seq<int>, b: seq<int>)
    requires Le(a, b) && Le(b, a)
    ensures a == b
  {
    CommonSymmetric(a, b);
    var n := Common(a, b);
    assert n == |a| && n == |b|;
    assert a[..n] == a && b[..n] == b;
  }

  lemma LeTransitive(a: seq<int>, b: seq<int>, c: seq<int>)
    requires Le(a, b) && Le(b, c)
    ensures Le(a, c)
  {
    var m, n := Common(a, b), Common(b, c);
    var k := if m < n then m else n;
    assert a[..k] == a[..m][..k] == b[..m][..k] == b[..k] == b[..n][..k] == c[..n][..k] == c[..k];
    CommonIs(a, c, k);
    if m < n {
      if m < |a| { assert b[m] == b[..n][m] == c[..n][m] == c[m]; }
    } else if n < m {
      assert a[n] == a[..m][n] == b[..m][n] == b[n];
    }
  }

  /** What lies between two strings has their common prefixes. */
  lemma Between(a: seq<int>, b: seq<int>, c: seq<int>, n: nat)
    requires Le(a, b) && Le(b, c) && n <= |a| && n <= |c| && a[..n] == c[..n]
    ensures n <= |b| && b[..n] == a[..n]
  {
    var m := Common(a, b);
    if m < n {
      assert a[m] == a[..n][m] == c[..n][m] == c[m];
      assert b[..m] == a[..m] == a[..n][..m] == c[..n][..m] == c[..m];
      CommonIs(b, c, m);
      assert false;
    }
    assert a[..n] == a[..m][..n] == b[..m][..n] == b[..n];
  }

  lemma PrefixLe(p: seq<int>, a: seq<int>)
    requires Prefix(p, a)
    ensures Le(p, a)
  {
    assert p[..|p|] == p;
    CommonIs(p, a, |p|);
  }

  /** gbt_var_node_cp_len, for single-byte encodings. */
  method CommonLength(a: seq<int>, b: seq<int>) returns (i: nat)
    ensures i == Common(a, b)
  {
    i := 0;
    while i < |a| && i < |b|
      invariant i <= |a| && i <= |b| && a[..i] == b[..i]
    {
      CommonIs(a, b, i);
      if a[i] != b[i] {
        return;
      }
      i := i + 1;
    }
    CommonIs(a, b, i);
  }

  /** byteacmp: the bytes both have, then the lengths. */
  method Compare(a: seq<int>, b: seq<int>) returns (c: int)
    ensures (c <= 0 <==> Le(a, b)) && (c >= 0 <==> Le(b, a))
  {
    var i := CommonLength(a, b);
    CommonSymmetric(a, b);
    if i < |a| && i < |b| {
      c := a[i] - b[i];
    } else {
      c := |a| - |b|;
    }
  }
}
