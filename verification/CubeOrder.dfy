/**
 The comparison behind cube's btree operator class (contrib/cube/cube.c:887-967): a total order among boxes of
 one number of dimensions, but not across them.
 */
module CubeOrder {
  import opened Cube

  /** Compares lower bounds from dimension `i` up to `n`: the first that differ decide. */
  function CmpLo(a: NDBox, b: NDBox, i: nat, n: nat): int
    requires Valid(a) && Valid(b)
    decreases n - i
  {
    if i >= n then 0
    else if Lo(a, i) > Lo(b, i) then 1
    else if Lo(a, i) < Lo(b, i) then -1
    else CmpLo(a, b, i + 1, n)
  }

  function CmpHi(a: NDBox, b: NDBox, i: nat, n: nat): int
    requires Valid(a) && Valid(b)
    decreases n - i
  {
    if i >= n then 0
    else if Hi(a, i) > Hi(b, i) then 1
    else if Hi(a, i) < Hi(b, i) then -1
    else CmpHi(a, b, i + 1, n)
  }

  function Then(c: int, d: int): int { if c != 0 then c else d }

  function Sign(x: int): int { if x > 0 then 1 else if x < 0 then -1 else 0 }

  /** Lower and upper bounds of dimensions `i` up to `n`. */
  function CmpRange(a: NDBox, b: NDBox, i: nat, n: nat): int
    requires Valid(a) && Valid(b)
  {
    Then(CmpLo(a, b, i, n), CmpHi(a, b, i, n))
  }

  /** cube_cmp_v0: the common dimensions, then the rest against zero, then the numbers of dimensions. */
  function Cmp(a: NDBox, b: NDBox): int
    requires Valid(a) && Valid(b)
  {
    var m := if a.dim < b.dim then a.dim else b.dim;
    var n := if a.dim < b.dim then b.dim else a.dim;
    Then(CmpRange(a, b, 0, m), Then(CmpRange(a, b, m, n), Sign(a.dim - b.dim)))
  }

  method CmpLoLoop(a: NDBox, b: NDBox, from: nat, to: nat) returns (r: int)
    requires Valid(a) && Valid(b) && from <= to
    ensures r == CmpLo(a, b, from, to)
  {
    for i := from to to
      invariant CmpLo(a, b, from, to) == CmpLo(a, b, i, to)
    {
      if Lo(a, i) > Lo(b, i) {
        return 1;
      }
      if Lo(a, i) < Lo(b, i) {
        return -1;
      }
    }
    r := 0;
  }

  method CmpHiLoop(a: NDBox, b: NDBox, from: nat, to: nat) returns (r: int)
    requires Valid(a) && Valid(b) && from <= to
    ensures r == CmpHi(a, b, from, to)
  {
    for i := from to to
      invariant CmpHi(a, b, from, to) == CmpHi(a, b, i, to)
    {
      if Hi(a, i) > Hi(b, i) {
        return 1;
      }
      if Hi(a, i) < Hi(b, i) {
        return -1;
      }
    }
    r := 0;
  }

  /** cube_cmp_v0 with its loops. */
  method CmpLoop(a: NDBox, b: NDBox) returns (r: int)
    requires Valid(a) && Valid(b)
    ensures r == Cmp(a, b)
  {
    var dim := if a.dim < b.dim then a.dim else b.dim;
    r := CmpLoLoop(a, b, 0, dim);
    if r != 0 { return; }
    r := CmpHiLoop(a, b, 0, dim);
    if r != 0 { return; }
    if a.dim > b.dim {
      r := CmpLoLoop(a, b, dim, a.dim);
      if r != 0 { return; }
      r := CmpHiLoop(a, b, dim, a.dim);
      if r != 0 { return; }
      return 1;
    }
    if a.dim < b.dim {
      r := CmpLoLoop(a, b, dim, b.dim);
      if r != 0 { return; }
      r := CmpHiLoop(a, b, dim, b.dim);
      if r != 0 { return; }
      return -1;
    }
    r := 0;
  }

  // Laws that hold for all boxes

  lemma {:induction false} RangeReverses(a: NDBox, b: NDBox, i: nat, n: nat)
    requires Valid(a) && Valid(b)
    ensures CmpLo(a, b, i, n) == -CmpLo(b, a, i, n) && CmpHi(a, b, i, n) == -CmpHi(b, a, i, n)
    decreases n - i
  {
    if i < n { RangeReverses(a, b, i + 1, n); }
  }

  lemma {:induction false} RangeZero(a: NDBox, b: NDBox, i: nat, n: nat)
    requires Valid(a) && Valid(b)
    ensures CmpLo(a, b, i, n) == 0 <==> forall k :: i <= k < n ==> Lo(a, k) == Lo(b, k)
    ensures CmpHi(a, b, i, n) == 0 <==> forall k :: i <= k < n ==> Hi(a, k) == Hi(b, k)
    decreases n - i
  {
    if i < n { RangeZero(a, b, i + 1, n); }
  }

  /** Swapping the boxes turns the answer round; equal means the same box. */
  lemma CmpReverses(a: NDBox, b: NDBox)
    requires Valid(a) && Valid(b)
    ensures Cmp(a, b) == -Cmp(b, a) && (Cmp(a, b) == 0 <==> SameBox(a, b))
  {
    var m := if a.dim < b.dim then a.dim else b.dim;
    var n := if a.dim < b.dim then b.dim else a.dim;
    RangeReverses(a, b, 0, m);
    RangeReverses(a, b, m, n);
    RangeZero(a, b, 0, m);
    RangeZero(a, b, m, n);
  }

  // Transitivity

  lemma {:induction false} LoTransitive(a: NDBox, b: NDBox, c: NDBox, i: nat, n: nat)
    requires Valid(a) && Valid(b) && Valid(c) && CmpLo(a, b, i, n) <= 0 && CmpLo(b, c, i, n) <= 0
    ensures CmpLo(a, c, i, n) <= 0 && (CmpLo(a, c, i, n) == 0 ==> CmpLo(a, b, i, n) == 0 == CmpLo(b, c, i, n))
    ensures CmpLo(a, b, i, n) == 0 == CmpLo(b, c, i, n) ==> CmpLo(a, c, i, n) == 0
    decreases n - i
  {
    if i < n && Lo(a, i) == Lo(b, i) == Lo(c, i) { LoTransitive(a, b, c, i + 1, n); }
  }

  lemma {:induction false} HiTransitive(a: NDBox, b: NDBox, c: NDBox, i: nat, n: nat)
    requires Valid(a) && Valid(b) && Valid(c) && CmpHi(a, b, i, n) <= 0 && CmpHi(b, c, i, n) <= 0
    ensures CmpHi(a, c, i, n) <= 0 && (CmpHi(a, c, i, n) == 0 ==> CmpHi(a, b, i, n) == 0 == CmpHi(b, c, i, n))
    ensures CmpHi(a, b, i, n) == 0 == CmpHi(b, c, i, n) ==> CmpHi(a, c, i, n) == 0
    decreases n - i
  {
    if i < n && Hi(a, i) == Hi(b, i) == Hi(c, i) { HiTransitive(a, b, c, i + 1, n); }
  }

  /** One way to compare all boxes that have `e` dimensions or none. */
  function Uniform(a: NDBox, b: NDBox, e: nat): int
    requires Valid(a) && Valid(b)
  {
    Then(CmpLo(a, b, 0, e), Then(CmpHi(a, b, 0, e), Sign(a.dim - b.dim)))
  }

  lemma UniformTransitive(a: NDBox, b: NDBox, c: NDBox, e: nat)
    requires Valid(a) && Valid(b) && Valid(c) && Uniform(a, b, e) <= 0 && Uniform(b, c, e) <= 0
    ensures Uniform(a, c, e) <= 0
  {
    LoTransitive(a, b, c, 0, e);
    if CmpLo(a, c, 0, e) == 0 { HiTransitive(a, b, c, 0, e); }
  }

  lemma CmpIsUniform(a: NDBox, b: NDBox, e: nat)
    requires Valid(a) && Valid(b) && (a.dim == 0 || a.dim == e) && (b.dim == 0 || b.dim == e)
    ensures Cmp(a, b) == Uniform(a, b, e)
  {
    RangeZero(a, b, 0, e);
  }

  // Where it fails

  /** A box with range [0, x] in its first dimension, y in dimension `d`, and zero elsewhere. */
  function Spike(e: nat, d: nat, x: real, y: real): NDBox
    requires 0 < e
  {
    NDBox(e, false, seq(2 * e, k => if k == e then x else if k == d || k == d + e then y else 0.0))
  }

  lemma SpikeRanges(e: nat, d: nat, x: real, y: real, i: nat)
    requires 0 < d <= e && x >= 0.0 && i < e
    ensures Valid(Spike(e, d, x, y))
    ensures Lo(Spike(e, d, x, y), i) == (if i == d then y else 0.0)
    ensures Hi(Spike(e, d, x, y), i) == (if i == 0 then x else if i == d then y else 0.0)
  {
  }

  lemma {:induction false} SpikeLo(a: NDBox, b: NDBox, i: nat, d: nat, n: nat)
    requires Valid(a) && Valid(b) && i <= d < n && (forall k :: i <= k < d ==> Lo(a, k) == Lo(b, k)) && Lo(a, d) < Lo(b, d)
    ensures CmpLo(a, b, i, n) == -1
    decreases d - i
  {
    if i < d { SpikeLo(a, b, i + 1, d, n); }
  }

  /** Three boxes of `d` and twice `e` dimensions, each less than the next, round and round. */
  lemma Cycle(d: nat, e: nat) returns (a: NDBox, b: NDBox, c: NDBox)
    requires 0 < d < e
    ensures Valid(a) && Valid(b) && Valid(c) && a.dim == d && b.dim == e && c.dim == e
    ensures Cmp(a, b) < 0 && Cmp(b, c) < 0 && Cmp(c, a) < 0
  {
    a, b, c := Spike(d, d, 5.0, 0.0), Spike(e, d, 6.0, 1.0), Spike(e, d, 4.0, 2.0);
    forall i | 0 <= i < d ensures Lo(a, i) == Lo(b, i) == Lo(c, i) == 0.0 {
      SpikeRanges(d, d, 5.0, 0.0, i);
      SpikeRanges(e, d, 6.0, 1.0, i);
      SpikeRanges(e, d, 4.0, 2.0, i);
    }
    SpikeRanges(d, d, 5.0, 0.0, 0);
    SpikeRanges(e, d, 6.0, 1.0, 0);
    SpikeRanges(e, d, 4.0, 2.0, 0);
    SpikeRanges(e, d, 6.0, 1.0, d);
    SpikeRanges(e, d, 4.0, 2.0, d);
    RangeZero(a, b, 0, d);
    RangeZero(c, a, 0, d);
    SpikeLo(b, c, 0, d, e);
  }

  /** The comparison is transitive on the boxes with these numbers of dimensions. */
  ghost predicate TransitiveOn(dims: set<nat>) {
    forall a, b, c :: Of(a, dims) && Of(b, dims) && Of(c, dims) && Cmp(a, b) <= 0 && Cmp(b, c) <= 0 ==> Cmp(a, c) <= 0
  }

  ghost predicate Of(b: NDBox, dims: set<nat>) { Valid(b) && b.dim in dims }

  /** The comparison orders the boxes with these numbers of dimensions exactly when at most one of them is not 0. */
  lemma CmpOrdersIff(dims: set<nat>)
    ensures TransitiveOn(dims) <==> forall d, e :: d in dims && e in dims && 0 < d && 0 < e ==> d == e
  {
    if exists d, e :: d in dims && e in dims && 0 < d < e {
      var d, e :| d in dims && e in dims && 0 < d < e;
      var a, b, c := Cycle(d, e);
      CmpReverses(a, c);
      assert Of(a, dims) && Of(b, dims) && Of(c, dims);
      assert Cmp(a, b) <= 0 && Cmp(b, c) <= 0 && Cmp(a, c) > 0;
    } else {
      forall a, b, c | Of(a, dims) && Of(b, dims) && Of(c, dims) && Cmp(a, b) <= 0 && Cmp(b, c) <= 0
        ensures Cmp(a, c) <= 0
      {
        var e := if a.dim > 0 then a.dim else if b.dim > 0 then b.dim else c.dim;
        CmpIsUniform(a, b, e);
        CmpIsUniform(b, c, e);
        CmpIsUniform(a, c, e);
        UniformTransitive(a, b, c, e);
      }
      assert TransitiveOn(dims);
    }
  }
}
