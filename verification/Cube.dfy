/**
 Boxes of any number of dimensions (contrib/cube/cube.c), over the reals: bounding boxes, the tests and
 distances on them, and what an index search does with those.
 */
module Cube {

  /** NDBOX: lower left coordinates, then upper right ones unless the box is flagged as a point. */
  datatype NDBox = NDBox(dim: nat, point: bool, x: seq<real>)

  predicate Valid(b: NDBox) { |b.x| >= if b.point then b.dim else 2 * b.dim }

  function LL(b: NDBox, i: nat): real
    requires Valid(b) && i < b.dim
  {
    b.x[i]
  }

  function UR(b: NDBox, i: nat): real
    requires Valid(b) && i < b.dim
  {
    if b.point then b.x[i] else b.x[i + b.dim]
  }

  function Min(x: real, y: real): real { if x < y then x else y }

  function Max(x: real, y: real): real { if x > y then x else y }

  /** The range of dimension `i`; dimensions that a box does not have are zero. */
  function Lo(b: NDBox, i: nat): real
    requires Valid(b)
  {
    if i < b.dim then Min(LL(b, i), UR(b, i)) else 0.0
  }

  function Hi(b: NDBox, i: nat): real
    requires Valid(b)
  {
    if i < b.dim then Max(LL(b, i), UR(b, i)) else 0.0
  }

  // Tests

  /** cube_contains_v0: excess dimensions of `b` must be zero, those of `a` do not matter. */
  ghost predicate Contains(a: NDBox, b: NDBox)
    requires Valid(a) && Valid(b)
  {
    && (forall i :: a.dim <= i < b.dim ==> Lo(b, i) == 0.0 == Hi(b, i))
    && (forall i :: 0 <= i < a.dim && i < b.dim ==> Lo(a, i) <= Lo(b, i) && Hi(b, i) <= Hi(a, i))
  }

  method ContainsLoop(a: NDBox, b: NDBox) returns (res: bool)
    requires Valid(a) && Valid(b)
    ensures res <==> Contains(a, b)
  {
    if a.dim < b.dim {
      for i := a.dim to b.dim
        invariant forall k :: a.dim <= k < i ==> Lo(b, k) == 0.0 == Hi(b, k)
      {
        if LL(b, i) != 0.0 || UR(b, i) != 0.0 {
          assert !(Lo(b, i) == 0.0 == Hi(b, i));
          return false;
        }
      }
    }
    var n := if a.dim < b.dim then a.dim else b.dim;
    for i := 0 to n
      invariant forall k :: 0 <= k < i ==> Lo(a, k) <= Lo(b, k) && Hi(b, k) <= Hi(a, k)
    {
      if Min(LL(a, i), UR(a, i)) > Min(LL(b, i), UR(b, i)) || Max(LL(a, i), UR(a, i)) < Max(LL(b, i), UR(b, i)) {
        assert !(Lo(a, i) <= Lo(b, i) && Hi(b, i) <= Hi(a, i));
        return false;
      }
    }
    res := true;
  }

  ghost predicate Meet(a: NDBox, b: NDBox, i: nat)
    requires Valid(a) && Valid(b)
  {
    Lo(a, i) <= Hi(b, i) && Lo(b, i) <= Hi(a, i)
  }

  /** The boxes have a point in common, missing dimensions being zero. */
  ghost predicate Overlap(a: NDBox, b: NDBox)
    requires Valid(a) && Valid(b)
  {
    forall i :: 0 <= i < a.dim || 0 <= i < b.dim ==> Meet(a, b, i)
  }

  /** cube_overlap_v0. */
  method OverlapLoop(p: NDBox, q: NDBox) returns (res: bool)
    requires Valid(p) && Valid(q)
    ensures res <==> Overlap(p, q)
  {
    var a, b := p, q;
    if a.dim < b.dim {
      a, b := b, a;
    }
    for i := 0 to b.dim
      invariant forall k :: 0 <= k < i ==> Meet(p, q, k)
    {
      if Min(LL(a, i), UR(a, i)) > Max(LL(b, i), UR(b, i)) || Max(LL(a, i), UR(a, i)) < Min(LL(b, i), UR(b, i)) {
        assert !Meet(p, q, i);
        return false;
      }
    }
    for i := b.dim to a.dim
      invariant forall k :: 0 <= k < i ==> Meet(p, q, k)
    {
      if Min(LL(a, i), UR(a, i)) > 0.0 || Max(LL(a, i), UR(a, i)) < 0.0 {
        assert !Meet(p, q, i);
        return false;
      }
    }
    res := true;
  }

  // Unions

  /** `u` bounds `b`: it has all its dimensions, and its range in every dimension. */
  ghost predicate Bounds(u: NDBox, b: NDBox) {
    Valid(u) && Valid(b) && u.dim >= b.dim && forall i: nat :: Lo(u, i) <= Lo(b, i) && Hi(b, i) <= Hi(u, i)
  }

  /** `u` is the smallest box around `a` and `b`. */
  ghost predicate IsUnion(u: NDBox, a: NDBox, b: NDBox)
    requires Valid(a) && Valid(b)
  {
    && Valid(u) && u.dim == (if a.dim < b.dim then b.dim else a.dim)
    && (u.point <==> forall i :: 0 <= i < u.dim ==> Lo(u, i) == Hi(u, i))
    && forall i :: 0 <= i < u.dim ==> Lo(u, i) == Min(Lo(a, i), Lo(b, i)) && Hi(u, i) == Max(Hi(a, i), Hi(b, i))
  }

  lemma UnionBounds(u: NDBox, a: NDBox, b: NDBox)
    requires Valid(a) && Valid(b) && IsUnion(u, a, b)
    ensures Bounds(u, a) && Bounds(u, b)
  {
    forall i: nat ensures Lo(u, i) <= Lo(a, i) && Hi(a, i) <= Hi(u, i) && Lo(u, i) <= Lo(b, i) && Hi(b, i) <= Hi(u, i) {
      if i < u.dim { assert Lo(u, i) == Min(Lo(a, i), Lo(b, i)); }
    }
  }

  /** cube_union_v0: the coordinates of the result, then the flag if it is a point. */
  method Union(p: NDBox, q: NDBox) returns (u: NDBox)
    requires Valid(p) && Valid(q)
    ensures IsUnion(u, p, q)
  {
    u := FillUnion(p, q);
    var point := IsPoint(u);
    u := u.(point := point);
  }

  method FillUnion(p: NDBox, q: NDBox) returns (u: NDBox)
    requires Valid(p) && Valid(q)
    ensures Valid(u) && !u.point && u.dim == if p.dim < q.dim then q.dim else p.dim
    ensures forall i :: 0 <= i < u.dim ==> Lo(u, i) == Min(Lo(p, i), Lo(q, i)) && Hi(u, i) == Max(Hi(p, i), Hi(q, i))
  {
    var a, b := p, q;
    if a.dim < b.dim {
      a, b := b, a;
    }
    var dim := a.dim;
    var x := new real[2 * dim](_ => 0.0);
    for i := 0 to b.dim
      invariant forall k :: 0 <= k < i ==> Filled(x[k], x[k + dim], p, q, k)
    {
      x[i] := Min(Min(LL(a, i), UR(a, i)), Min(LL(b, i), UR(b, i)));
      x[i + dim] := Max(Max(LL(a, i), UR(a, i)), Max(LL(b, i), UR(b, i)));
      FilledBoth(x[i], x[i + dim], a, b, i);
    }
    for i := b.dim to dim
      invariant forall k :: 0 <= k < i ==> Filled(x[k], x[k + dim], p, q, k)
    {
      x[i] := Min(0.0, Min(LL(a, i), UR(a, i)));
      x[i + dim] := Max(0.0, Max(LL(a, i), UR(a, i)));
      FilledOne(x[i], x[i + dim], a, b, i);
    }
    u := NDBox(dim, false, x[..]);
    forall i | 0 <= i < dim ensures Lo(u, i) == Min(Lo(p, i), Lo(q, i)) && Hi(u, i) == Max(Hi(p, i), Hi(q, i)) {
      assert Filled(x[i], x[i + dim], p, q, i);
    }
  }

  ghost predicate Filled(lo: real, hi: real, p: NDBox, q: NDBox, i: nat)
    requires Valid(p) && Valid(q)
  {
    lo == Min(Lo(p, i), Lo(q, i)) && hi == Max(Hi(p, i), Hi(q, i)) && lo <= hi
  }

  lemma FilledBoth(lo: real, hi: real, a: NDBox, b: NDBox, i: nat)
    requires Valid(a) && Valid(b) && i < a.dim && i < b.dim
    requires lo == Min(Min(LL(a, i), UR(a, i)), Min(LL(b, i), UR(b, i)))
    requires hi == Max(Max(LL(a, i), UR(a, i)), Max(LL(b, i), UR(b, i)))
    ensures Filled(lo, hi, a, b, i) && Filled(lo, hi, b, a, i)
  {
  }

  lemma FilledOne(lo: real, hi: real, a: NDBox, b: NDBox, i: nat)
    requires Valid(a) && Valid(b) && b.dim <= i < a.dim
    requires lo == Min(0.0, Min(LL(a, i), UR(a, i))) && hi == Max(0.0, Max(LL(a, i), UR(a, i)))
    ensures Filled(lo, hi, a, b, i) && Filled(lo, hi, b, a, i)
  {
  }

  /** cube_is_point_internal. */
  method IsPoint(b: NDBox) returns (res: bool)
    requires Valid(b)
    ensures res <==> forall i :: 0 <= i < b.dim ==> Lo(b, i) == Hi(b, i)
  {
    if b.point {
      return true;
    }
    for i := 0 to b.dim
      invariant forall k :: 0 <= k < i ==> Lo(b, k) == Hi(b, k)
    {
      if LL(b, i) != UR(b, i) {
        assert Lo(b, i) != Hi(b, i);
        return false;
      }
    }
    res := true;
  }

  // Searches

  datatype Entry = Item(box: NDBox) | Node(parts: seq<Entry>, key: NDBox)

  function KeyOf(e: Entry): NDBox { if e.Item? then e.box else e.key }

  /** The key of the first `n` parts, joined one after another. */
  ghost predicate Joins(parts: seq<Entry>, n: nat, key: NDBox)
    requires n <= |parts| && forall k :: 0 <= k < |parts| ==> Valid(KeyOf(parts[k]))
    decreases n
  {
    n > 0 && if n == 1 then key == KeyOf(parts[0])
             else exists u :: Valid(u) && Joins(parts, n - 1, u) && IsUnion(key, u, KeyOf(parts[n - 1]))
  }

  /** g_cube_union: the fold of the unions. */
  method JoinAll(parts: seq<Entry>) returns (key: NDBox)
    requires |parts| > 0 && forall k :: 0 <= k < |parts| ==> Valid(KeyOf(parts[k]))
    ensures Joins(parts, |parts|, key) && Valid(key)
  {
    key := KeyOf(parts[0]);
    for i := 1 to |parts|
      invariant Joins(parts, i, key) && Valid(key)
    {
      key := Union(key, KeyOf(parts[i]));
    }
  }

  /** Every node key is the union of the keys below (an older key of the same node may be one of them). */
  ghost predicate Built(e: Entry) {
    && Valid(KeyOf(e))
    && (e.Node? ==>
          (forall k :: 0 <= k < |e.parts| ==> Built(e.parts[k])) && Joins(e.parts, |e.parts|, e.key))
  }

  ghost predicate Below(e: Entry, b: NDBox) {
    match e
    case Item(box) => b == box
    case Node(parts, _) => exists k :: 0 <= k < |parts| && Below(parts[k], b)
  }

  lemma BoundsTransitive(u: NDBox, v: NDBox, b: NDBox)
    requires Bounds(u, v) && Bounds(v, b)
    ensures Bounds(u, b)
  {
  }

  lemma {:induction false} JoinsBound(parts: seq<Entry>, n: nat, key: NDBox, k: nat)
    requires k < n <= |parts| && (forall j :: 0 <= j < |parts| ==> Valid(KeyOf(parts[j]))) && Joins(parts, n, key)
    ensures Bounds(key, KeyOf(parts[k]))
    decreases n
  {
    if n > 1 {
      var u :| Valid(u) && Joins(parts, n - 1, u) && IsUnion(key, u, KeyOf(parts[n - 1]));
      UnionBounds(key, u, KeyOf(parts[n - 1]));
      if k < n - 1 {
        JoinsBound(parts, n - 1, u, k);
        BoundsTransitive(key, u, KeyOf(parts[k]));
      }
    }
  }

  /** A key bounds every item below it, on every level. */
  lemma {:induction false} KeyBounds(e: Entry, b: NDBox)
    requires Built(e) && Below(e, b)
    ensures Bounds(KeyOf(e), b)
    decreases e
  {
    if e.Node? {
      var k :| 0 <= k < |e.parts| && Below(e.parts[k], b);
      KeyBounds(e.parts[k], b);
      JoinsBound(e.parts, |e.parts|, e.key, k);
      BoundsTransitive(e.key, KeyOf(e.parts[k]), b);
    }
  }

  datatype Strategy = DoOverlap | DoSame | DoContains | DoContainedBy

  ghost predicate SameBox(a: NDBox, b: NDBox)
    requires Valid(a) && Valid(b)
  {
    a.dim == b.dim && forall i :: 0 <= i < a.dim ==> Lo(a, i) == Lo(b, i) && Hi(a, i) == Hi(b, i)
  }

  /** g_cube_leaf_consistent: the operator itself. */
  ghost predicate Matches(s: Strategy, b: NDBox, q: NDBox)
    requires Valid(b) && Valid(q)
  {
    match s
    case DoOverlap => Overlap(b, q)
    case DoSame => SameBox(b, q)
    case DoContains => Contains(b, q)
    case DoContainedBy => Contains(q, b)
  }

  /** g_cube_internal_consistent. */
  ghost predicate Test(s: Strategy, key: NDBox, q: NDBox)
    requires Valid(key) && Valid(q)
  {
    match s
    case DoOverlap => Overlap(key, q)
    case DoSame => Contains(key, q)
    case DoContains => Contains(key, q)
    case DoContainedBy => Overlap(key, q)
  }

  /** In the dimensions that the query has and the box has not, the query reaches zero. */
  ghost predicate ReachesZero(q: NDBox, b: NDBox)
    requires Valid(q)
  {
    forall i :: b.dim <= i < q.dim ==> Lo(q, i) <= 0.0 <= Hi(q, i)
  }

  /** No test above a matching item turns the search away; for contained-by if the query reaches zero. */
  lemma NodeTest(key: NDBox, b: NDBox, s: Strategy, q: NDBox)
    requires Bounds(key, b) && Valid(q) && Matches(s, b, q) && (s.DoContainedBy? ==> ReachesZero(q, b))
    ensures Test(s, key, q)
  {
    match s
    case DoOverlap =>
      forall i | 0 <= i < key.dim || 0 <= i < q.dim ensures Meet(key, q, i) {
        if i < b.dim || i < q.dim { assert Meet(b, q, i); }
      }
    case DoSame => ContainsAbove(key, b, q);
    case DoContains => ContainsAbove(key, b, q);
    case DoContainedBy =>
      forall i | 0 <= i < key.dim || 0 <= i < q.dim ensures Meet(key, q, i) {
        assert Lo(b, i) <= Hi(b, i);
        if i < b.dim && q.dim <= i { assert Lo(b, i) == 0.0 == Hi(b, i); }
      }
  }

  lemma ContainsAbove(key: NDBox, b: NDBox, q: NDBox)
    requires Bounds(key, b) && Valid(q) && Contains(b, q)
    ensures Contains(key, q)
  {
    forall i | 0 <= i < key.dim && i < q.dim ensures Lo(key, i) <= Lo(q, i) && Hi(q, i) <= Hi(key, i) {
      if b.dim <= i { assert Lo(q, i) == 0.0 == Hi(q, i); }
    }
  }

  ghost predicate Reached(e: Entry, s: Strategy, q: NDBox, b: NDBox)
    requires Built(e) && Valid(q)
  {
    match e
    case Item(box) => b == box && Matches(s, box, q)
    case Node(parts, key) => Test(s, key, q) && exists k :: 0 <= k < |parts| && Reached(parts[k], s, q, b)
  }

  /** A search returns exactly the matching items (for contained-by: those for which the query reaches zero). */
  lemma {:induction false} SearchIsExact(e: Entry, s: Strategy, q: NDBox, b: NDBox)
    requires Built(e) && Valid(q) && (s.DoContainedBy? ==> ReachesZero(q, b))
    ensures Reached(e, s, q, b) <==> Below(e, b) && Valid(b) && Matches(s, b, q)
    decreases e
  {
    if e.Node? {
      forall k | 0 <= k < |e.parts|
        ensures Reached(e.parts[k], s, q, b) <==> Below(e.parts[k], b) && Valid(b) && Matches(s, b, q)
      {
        SearchIsExact(e.parts[k], s, q, b);
      }
      if Below(e, b) && Valid(b) && Matches(s, b, q) {
        KeyBounds(e, b);
        NodeTest(e.key, b, s, q);
      }
    }
  }

  /**
   Contained-by finds a matching item in every index it is in, exactly when the query reaches zero in
   the dimensions that only the query has.
   */
  lemma ContainedByIff(b: NDBox, q: NDBox)
    requires Valid(b) && Valid(q) && Contains(q, b)
    ensures (forall e :: Built(e) && Below(e, b) ==> Reached(e, DoContainedBy, q, b)) <==> ReachesZero(q, b)
  {
    if ReachesZero(q, b) {
      forall e | Built(e) && Below(e, b) ensures Reached(e, DoContainedBy, q, b) { SearchIsExact(e, DoContainedBy, q, b); }
    } else {
      var i :| b.dim <= i < q.dim && !(Lo(q, i) <= 0.0 <= Hi(q, i));
      var item := Item(b);
      var e := Node([item], b);
      assert Built(item) && Joins(e.parts, 1, b);
      assert Below(e.parts[0], b);
      assert !Meet(b, q, i);
      assert Built(e) && Below(e, b) && !Reached(e, DoContainedBy, q, b);
    }
  }
}
