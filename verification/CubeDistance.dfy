/** The distances of boxes (contrib/cube/cube.c:1200-1468, 1597-1652), which order nearest-neighbour searches. */
module CubeDistance {
  import opened Cube

  /** How far apart the ranges of dimension `i` are. */
  ghost function Gap(a: NDBox, b: NDBox, i: nat): real
    requires Valid(a) && Valid(b)
  {
    if Hi(a, i) <= Lo(b, i) then Lo(b, i) - Hi(a, i)
    else if Hi(b, i) <= Lo(a, i) then Lo(a, i) - Hi(b, i)
    else 0.0
  }

  /** distance_1D. */
  function Distance1D(a1: real, a2: real, b1: real, b2: real): real {
    if a1 <= b1 && a2 <= b1 && a1 <= b2 && a2 <= b2 then Min(b1, b2) - Max(a1, a2)
    else if a1 > b1 && a2 > b1 && a1 > b2 && a2 > b2 then Min(a1, a2) - Max(b1, b2)
    else 0.0
  }

  lemma GapFacts(a: NDBox, b: NDBox, i: nat)
    requires Valid(a) && Valid(b)
    ensures Gap(a, b, i) >= 0.0 && Gap(a, b, i) == Gap(b, a, i)
    ensures i >= a.dim && i >= b.dim ==> Gap(a, b, i) == 0.0
  {
    assert Lo(a, i) <= Hi(a, i) && Lo(b, i) <= Hi(b, i);
  }

  lemma Distance1DIsGap(a: NDBox, b: NDBox, i: nat)
    requires Valid(a) && Valid(b) && i < a.dim
    ensures i < b.dim ==> Distance1D(LL(a, i), UR(a, i), LL(b, i), UR(b, i)) == Gap(a, b, i)
    ensures i >= b.dim ==> Distance1D(LL(a, i), UR(a, i), 0.0, 0.0) == Gap(a, b, i)
  {
  }

  /** A bigger box is no farther away. */
  lemma GapShrinks(u: NDBox, b: NDBox, q: NDBox, i: nat)
    requires Bounds(u, b) && Valid(q)
    ensures Gap(u, q, i) <= Gap(b, q, i)
  {
    assert Lo(u, i) <= Lo(b, i) <= Hi(b, i) <= Hi(u, i);
  }

  function Dims(a: NDBox, b: NDBox): nat { if a.dim < b.dim then b.dim else a.dim }

  // Taxicab

  ghost function Taxi(a: NDBox, b: NDBox, n: nat): real
    requires Valid(a) && Valid(b)
  {
    if n == 0 then 0.0 else Taxi(a, b, n - 1) + Gap(a, b, n - 1)
  }

  lemma {:induction false} TaxiSymmetric(a: NDBox, b: NDBox, n: nat)
    requires Valid(a) && Valid(b)
    ensures Taxi(a, b, n) == Taxi(b, a, n)
  {
    if n > 0 {
      TaxiSymmetric(a, b, n - 1);
      GapFacts(a, b, n - 1);
    }
  }

  function Abs(x: real): real { if x < 0.0 then -x else x }

  /** The one-dimensional distance that the loops add up: to zero in dimensions that `b` lacks. */
  function Axis(a: NDBox, b: NDBox, i: nat): real
    requires Valid(a) && Valid(b) && i < a.dim
  {
    if i < b.dim then Distance1D(LL(a, i), UR(a, i), LL(b, i), UR(b, i)) else Distance1D(LL(a, i), UR(a, i), 0.0, 0.0)
  }

  lemma AxisIsGap(a: NDBox, b: NDBox, i: nat)
    requires Valid(a) && Valid(b) && i < a.dim
    ensures Axis(a, b, i) == Gap(a, b, i) >= 0.0
  {
    Distance1DIsGap(a, b, i);
    GapFacts(a, b, i);
  }

  /** distance_taxicab. */
  method Taxicab(p: NDBox, q: NDBox) returns (distance: real)
    requires Valid(p) && Valid(q)
    ensures distance == Taxi(p, q, Dims(p, q))
  {
    var a, b := p, q;
    if a.dim < b.dim {
      a, b := b, a;
    }
    distance := 0.0;
    for i := 0 to b.dim
      invariant distance == Taxi(a, b, i)
    {
      AxisIsGap(a, b, i);
      distance := distance + Abs(Distance1D(LL(a, i), UR(a, i), LL(b, i), UR(b, i)));
    }
    for i := b.dim to a.dim
      invariant distance == Taxi(a, b, i)
    {
      AxisIsGap(a, b, i);
      distance := distance + Abs(Distance1D(LL(a, i), UR(a, i), 0.0, 0.0));
    }
    TaxiSymmetric(p, q, Dims(p, q));
  }

  lemma {:induction false} TaxiShrinks(u: NDBox, b: NDBox, q: NDBox, n: nat)
    requires Bounds(u, b) && Valid(q)
    ensures Taxi(u, q, n) <= Taxi(b, q, n)
  {
    if n > 0 {
      TaxiShrinks(u, b, q, n - 1);
      GapShrinks(u, b, q, n - 1);
    }
  }

  lemma {:induction false} TaxiStops(a: NDBox, b: NDBox, n: nat)
    requires Valid(a) && Valid(b) && n >= Dims(a, b)
    ensures Taxi(a, b, n) == Taxi(a, b, Dims(a, b))
  {
    if n > Dims(a, b) {
      TaxiStops(a, b, n - 1);
      GapFacts(a, b, n - 1);
    }
  }

  // Euclid, squared

  ghost function Sum(f: nat -> real, n: nat): real { if n == 0 then 0.0 else Sum(f, n - 1) + f(n - 1) }

  lemma {:induction false} SumGrows(f: nat -> real, g: nat -> real, n: nat)
    requires forall i: nat :: f(i) <= g(i)
    ensures Sum(f, n) <= Sum(g, n)
  {
    if n > 0 { SumGrows(f, g, n - 1); }
  }

  lemma {:induction false} SumStops(f: nat -> real, k: nat, n: nat)
    requires k <= n && forall i: nat :: i >= k ==> f(i) == 0.0
    ensures Sum(f, n) == Sum(f, k)
    decreases n
  {
    if n > k { SumStops(f, k, n - 1); }
  }

  function Square(x: real): real { x * x }

  ghost function GapSquare(a: NDBox, b: NDBox): nat -> real
    requires Valid(a) && Valid(b)
  {
    (i: nat) => Square(Gap(a, b, i))
  }

  ghost function Squares(a: NDBox, b: NDBox, n: nat): real
    requires Valid(a) && Valid(b)
  {
    Sum(GapSquare(a, b), n)
  }

  lemma SquaresSymmetric(a: NDBox, b: NDBox, n: nat)
    requires Valid(a) && Valid(b)
    ensures Squares(a, b, n) == Squares(b, a, n)
  {
    forall i: nat ensures GapSquare(a, b)(i) == GapSquare(b, a)(i) { GapFacts(a, b, i); }
    SumGrows(GapSquare(a, b), GapSquare(b, a), n);
    SumGrows(GapSquare(b, a), GapSquare(a, b), n);
  }

  /** cube_distance before the square root is taken. */
  method SquaredDistance(p: NDBox, q: NDBox) returns (distance: real)
    requires Valid(p) && Valid(q)
    ensures distance == Squares(p, q, Dims(p, q))
  {
    var a, b := p, q;
    if a.dim < b.dim {
      a, b := b, a;
    }
    distance := 0.0;
    for i := 0 to b.dim
      invariant distance == Squares(a, b, i)
    {
      AxisIsGap(a, b, i);
      var d := Distance1D(LL(a, i), UR(a, i), LL(b, i), UR(b, i));
      distance := distance + Square(d);
    }
    for i := b.dim to a.dim
      invariant distance == Squares(a, b, i)
    {
      AxisIsGap(a, b, i);
      var d := Distance1D(LL(a, i), UR(a, i), 0.0, 0.0);
      distance := distance + Square(d);
    }
    SquaresSymmetric(p, q, Dims(p, q));
  }

  lemma SquareGrows(x: real, y: real)
    requires 0.0 <= x <= y
    ensures Square(x) <= Square(y)
  {
  }

  lemma SquaresShrink(u: NDBox, b: NDBox, q: NDBox, n: nat)
    requires Bounds(u, b) && Valid(q)
    ensures Squares(u, q, n) <= Squares(b, q, n)
  {
    forall i: nat ensures GapSquare(u, q)(i) <= GapSquare(b, q)(i) {
      GapShrinks(u, b, q, i);
      GapFacts(u, q, i);
      SquareGrows(Gap(u, q, i), Gap(b, q, i));
    }
    SumGrows(GapSquare(u, q), GapSquare(b, q), n);
  }

  lemma SquaresStop(a: NDBox, b: NDBox, n: nat)
    requires Valid(a) && Valid(b) && n >= Dims(a, b)
    ensures Squares(a, b, n) == Squares(a, b, Dims(a, b))
  {
    forall i: nat | i >= Dims(a, b) ensures GapSquare(a, b)(i) == 0.0 { GapFacts(a, b, i); }
    SumStops(GapSquare(a, b), Dims(a, b), n);
  }

  // Chebyshev

  ghost function Largest(a: NDBox, b: NDBox, n: nat): real
    requires Valid(a) && Valid(b)
  {
    if n == 0 then 0.0 else Max(Largest(a, b, n - 1), Gap(a, b, n - 1))
  }

  lemma {:induction false} LargestSymmetric(a: NDBox, b: NDBox, n: nat)
    requires Valid(a) && Valid(b)
    ensures Largest(a, b, n) == Largest(b, a, n)
  {
    if n > 0 {
      LargestSymmetric(a, b, n - 1);
      GapFacts(a, b, n - 1);
    }
  }

  /** distance_chebyshev. */
  method Chebyshev(p: NDBox, q: NDBox) returns (distance: real)
    requires Valid(p) && Valid(q)
    ensures distance == Largest(p, q, Dims(p, q))
  {
    var a, b := p, q;
    if a.dim < b.dim {
      a, b := b, a;
    }
    distance := 0.0;
    for i := 0 to a.dim
      invariant distance == Largest(a, b, i)
    {
      AxisIsGap(a, b, i);
      var d := Abs(Axis(a, b, i));
      if d > distance {
        distance := d;
      }
    }
    LargestSymmetric(p, q, Dims(p, q));
  }

  lemma {:induction false} LargestShrinks(u: NDBox, b: NDBox, q: NDBox, n: nat)
    requires Bounds(u, b) && Valid(q)
    ensures Largest(u, q, n) <= Largest(b, q, n)
  {
    if n > 0 {
      LargestShrinks(u, b, q, n - 1);
      GapShrinks(u, b, q, n - 1);
    }
  }

  lemma {:induction false} LargestStops(a: NDBox, b: NDBox, n: nat)
    requires Valid(a) && Valid(b) && n >= Dims(a, b)
    ensures Largest(a, b, n) == Largest(a, b, Dims(a, b)) >= 0.0
    decreases n
  {
    if n > Dims(a, b) {
      LargestStops(a, b, n - 1);
      GapFacts(a, b, n - 1);
    } else if n > 0 {
      LargestNonnegative(a, b, n);
    }
  }

  lemma {:induction false} LargestNonnegative(a: NDBox, b: NDBox, n: nat)
    requires Valid(a) && Valid(b)
    ensures Largest(a, b, n) >= 0.0
  {
    if n > 0 { LargestNonnegative(a, b, n - 1); }
  }

  // Coordinates

  /** cube_coord_llur for coordinate numbers other than 0: 2N-1 and 2N are the bounds of dimension N. */
  function Coord(b: NDBox, coord: int): real
    requires Valid(b) && coord != 0
  {
    var c := if coord < 0 then -coord else coord;
    var index, upper := (c - 1) / 2, (c - 1) % 2 == 1;
    var r := if upper then Hi(b, index) else Lo(b, index);
    if coord < 0 then -r else r
  }

  /** The same for a node: the bound that no item below can be under. */
  function NodeCoord(b: NDBox, coord: int): real
    requires Valid(b) && coord != 0
  {
    var c := if coord < 0 then -coord else coord;
    var index := (c - 1) / 2;
    if coord < 0 then -Hi(b, index) else Lo(b, index)
  }

  // Nodes

  /** Whatever the distance, a node is never farther away than an item below it. */
  lemma NodeDistances(e: Entry, b: NDBox, q: NDBox, coord: int)
    requires Built(e) && Below(e, b) && Valid(q) && coord != 0
    ensures Valid(b)
    ensures Taxi(KeyOf(e), q, Dims(KeyOf(e), q)) <= Taxi(b, q, Dims(b, q))
    ensures Squares(KeyOf(e), q, Dims(KeyOf(e), q)) <= Squares(b, q, Dims(b, q))
    ensures Largest(KeyOf(e), q, Dims(KeyOf(e), q)) <= Largest(b, q, Dims(b, q))
    ensures NodeCoord(KeyOf(e), coord) <= Coord(b, coord)
  {
    var u := KeyOf(e);
    KeyBounds(e, b);
    var n := Dims(u, q);
    TaxiShrinks(u, b, q, n);
    TaxiStops(b, q, n);
    SquaresShrink(u, b, q, n);
    SquaresStop(b, q, n);
    LargestShrinks(u, b, q, n);
    LargestStops(b, q, n);
    CoordShrinks(u, b, coord);
  }

  lemma CoordShrinks(u: NDBox, b: NDBox, coord: int)
    requires Bounds(u, b) && coord != 0
    ensures NodeCoord(u, coord) <= Coord(b, coord)
  {
    var index := ((if coord < 0 then -coord else coord) - 1) / 2;
    assert Lo(u, index) <= Lo(b, index) <= Hi(b, index) <= Hi(u, index);
  }
}
