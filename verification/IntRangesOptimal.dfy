/** How good the range compression is: it is the best possible exactly when no gap overflows int32. */
module IntRangesOptimal {
  import opened IntRanges

  /** What the elements behind `a[0]` cost: an open gap leaves one integer to cover, a closed one its whole width. */
  function Cost(a: seq<int>, open: set<int>, n: nat): int
    requires 1 <= n <= |a|
  {
    if n == 1 then 0
    else Cost(a, open, n - 1) + if n - 1 in open then 1 else a[n - 1] - a[n - 2]
  }

  function OpenCount(open: set<int>, n: nat): nat
    requires 1 <= n
  {
    if n == 1 then 0 else OpenCount(open, n - 1) + if n - 1 in open then 1 else 0
  }

  function Elems(ks: seq<int>): set<int> { set i | i in ks }

  /** The gaps in `best` are at least `d` wide, the others at most. */
  ghost predicate Widest(a: seq<int>, best: set<int>, n: nat, d: int)
    requires n <= |a|
  {
    forall i :: 1 <= i < n ==> if i in best then a[i] - a[i - 1] - 1 >= d else a[i] - a[i - 1] - 1 <= d
  }

  /** A toll of `d` for every open gap. */
  function Toll(open: set<int>, n: nat, d: int): int
    requires 1 <= n
  {
    if n == 1 then 0 else Toll(open, n - 1, d) + if n - 1 in open then d else 0
  }

  lemma {:induction false} TollIsCount(open: set<int>, n: nat, d: int)
    requires 1 <= n
    ensures Toll(open, n, d) == OpenCount(open, n) * d
  {
    if n > 1 {
      TollIsCount(open, n - 1, d);
      var x: int := OpenCount(open, n - 1);
      assert (x + 1) * d == x * d + d;
    }
  }

  /** Trading open gaps of width above `d` for others of width at most `d` never pays. */
  lemma {:induction false} Exchange(a: seq<int>, best: set<int>, other: set<int>, n: nat, d: int)
    requires Increasing(a) && 1 <= n <= |a| && Widest(a, best, n, d)
    ensures Cost(a, best, n) + Toll(best, n, d) <= Cost(a, other, n) + Toll(other, n, d)
  {
    if n > 1 { Exchange(a, best, other, n - 1, d); }
  }

  lemma {:induction false} OpenCountUpTo(a: seq<int>, ks: seq<int>, n: nat, p: nat)
    requires Choice(a, ks) && 1 <= n <= |a| && p <= |ks|
    requires (p > 0 ==> ks[p - 1] < n) && (p < |ks| ==> n <= ks[p])
    ensures OpenCount(Elems(ks), n) == p
    decreases n
  {
    if n > 1 {
      if n - 1 in ks {
        var j :| 0 <= j < |ks| && ks[j] == n - 1;
        assert j == p - 1;
        OpenCountUpTo(a, ks, n - 1, p - 1);
      } else {
        assert p > 0 ==> ks[p - 1] < n - 1;
        OpenCountUpTo(a, ks, n - 1, p);
      }
    }
  }

  // The size of the compressed key

  /** internal_size: how many integers the ranges hold, a range that starts where the last one ended not counted. */
  function InternalSize(d: seq<int>): int {
    if |d| < 2 then 0
    else
      InternalSize(d[..|d| - 2]) +
      if |d| == 2 || d[|d| - 2] != d[|d| - 3] then d[|d| - 1] - d[|d| - 2] + 1 else 0
  }

  method InternalSizeLoop(d: seq<int>) returns (size: int)
    requires |d| % 2 == 0
    ensures size == InternalSize(d)
  {
    size := 0;
    var i := 0;
    while i < |d|
      invariant 0 <= i <= |d| && i % 2 == 0 && size == InternalSize(d[..i])
    {
      assert d[..i + 2][..i] == d[..i];
      if i == 0 || d[i] != d[i - 1] {
        size := size + d[i + 1] - d[i] + 1;
      }
      i := i + 2;
    }
    assert d[..i] == d;
  }

  /** The summed width of the first `p` open gaps. */
  function OpenWidth(a: seq<int>, ks: seq<int>, p: nat): int
    requires p <= |ks| && forall j :: 0 <= j < |ks| ==> 0 < ks[j] < |a|
  {
    if p == 0 then 0 else OpenWidth(a, ks, p - 1) + a[ks[p - 1]] - a[ks[p - 1] - 1]
  }

  lemma {:induction false} SizeUpTo(a: seq<int>, ks: seq<int>, d: seq<int>, p: nat)
    requires Increasing(a) && Flat(a, ks, d) && p <= |ks|
    ensures InternalSize(d[..2 * p + 2]) == d[2 * p + 1] - a[0] + p + 1 - OpenWidth(a, ks, p)
  {
    var e := d[..2 * p + 2];
    if p == 0 {
      assert e[..0] == [];
      assert InternalSize(e[..0]) == 0;
    } else {
      SizeUpTo(a, ks, d, p - 1);
      assert e[..|e| - 2] == d[..2 * (p - 1) + 2];
      assert d[2 * (p - 1) + 1] == a[ks[p - 1] - 1] && d[2 * (p - 1) + 2] == a[ks[p - 1]];
    }
  }

  lemma {:induction false} CostUpTo(a: seq<int>, ks: seq<int>, n: nat, p: nat)
    requires Choice(a, ks) && 1 <= n <= |a| && p <= |ks|
    requires (p > 0 ==> ks[p - 1] < n) && (p < |ks| ==> n <= ks[p])
    ensures Cost(a, Elems(ks), n) == a[n - 1] - a[0] + p - OpenWidth(a, ks, p)
    decreases n
  {
    if n > 1 {
      if n - 1 in ks {
        var j :| 0 <= j < |ks| && ks[j] == n - 1;
        assert j == p - 1;
        CostUpTo(a, ks, n - 1, p - 1);
      } else {
        assert p > 0 ==> ks[p - 1] < n - 1;
        CostUpTo(a, ks, n - 1, p);
      }
    }
  }

  lemma SizeIsCost(a: seq<int>, ks: seq<int>, d: seq<int>)
    requires Increasing(a) && Flat(a, ks, d)
    ensures InternalSize(d) == 1 + Cost(a, Elems(ks), |a|)
  {
    SizeUpTo(a, ks, d, |ks|);
    assert d[..2 * |ks| + 2] == d;
    CostUpTo(a, ks, |a|, |ks|);
  }

  // Arbitrary covers

  type Interval = (int, int)

  ghost predicate Covered(c: set<Interval>, x: int) {
    exists r :: r in c && r.0 <= x <= r.1
  }

  ghost predicate Covers(c: set<Interval>, a: seq<int>) {
    forall i :: 0 <= i < |a| ==> Covered(c, a[i])
  }

  /** How many integers from `lo` up to but not including `hi` are covered. */
  ghost function Count(c: set<Interval>, lo: int, hi: int): nat
    decreases hi - lo
  {
    if hi <= lo then 0 else Count(c, lo, hi - 1) + if Covered(c, hi - 1) then 1 else 0
  }

  /** The integers between the least and the greatest element that a cover holds. */
  ghost function CoverSize(c: set<Interval>, a: seq<int>): nat
    requires a != []
  {
    Count(c, a[0], a[|a| - 1] + 1)
  }

  lemma {:induction false} CountSplit(c: set<Interval>, lo: int, mid: int, hi: int)
    requires lo <= mid <= hi
    ensures Count(c, lo, hi) == Count(c, lo, mid) + Count(c, mid, hi)
    decreases hi - mid
  {
    if mid < hi { CountSplit(c, lo, mid, hi - 1); }
  }

  lemma {:induction false} CountAll(c: set<Interval>, lo: int, hi: int)
    requires lo <= hi && forall x :: lo <= x < hi ==> Covered(c, x)
    ensures Count(c, lo, hi) == hi - lo
    decreases hi - lo
  {
    if lo < hi { CountAll(c, lo, hi - 1); }
  }

  lemma {:induction false} CountNone(c: set<Interval>, lo: int, hi: int)
    requires lo <= hi && forall x :: lo <= x < hi ==> !Covered(c, x)
    ensures Count(c, lo, hi) == 0
    decreases hi - lo
  {
    if lo < hi { CountNone(c, lo, hi - 1); }
  }

  lemma {:induction false} CountAtMost(c: set<Interval>, lo: int, hi: int)
    requires lo <= hi
    ensures Count(c, lo, hi) <= hi - lo
    decreases hi - lo
  {
    if lo < hi { CountAtMost(c, lo, hi - 1); }
  }

  /** The gap in front of element `i` has an integer that is not covered. */
  ghost predicate Hole(c: set<Interval>, a: seq<int>, i: int) {
    0 < i < |a| && exists x :: a[i - 1] < x < a[i] && !Covered(c, x)
  }

  ghost function Holes(c: set<Interval>, a: seq<int>): set<int> {
    set i | 0 < i < |a| && Hole(c, a, i)
  }

  /** A cover costs at least what its holes leave to cover. */
  lemma {:induction false} CoverCosts(c: set<Interval>, a: seq<int>, holes: set<int>, n: nat)
    requires Increasing(a) && 1 <= n <= |a| && Covers(c, a) && forall i :: Hole(c, a, i) ==> i in holes
    ensures Count(c, a[0], a[n - 1] + 1) >= 1 + Cost(a, holes, n)
  {
    if n == 1 {
      assert Count(c, a[0], a[0]) == 0;
    } else {
      CoverCosts(c, a, holes, n - 1);
      CoverStep(c, a, holes, n - 1);
    }
  }

  lemma CoverStep(c: set<Interval>, a: seq<int>, holes: set<int>, i: nat)
    requires Increasing(a) && 0 < i < |a| && Covers(c, a) && (Hole(c, a, i) ==> i in holes)
    ensures Count(c, a[0], a[i] + 1) >= Count(c, a[0], a[i - 1] + 1) + if i in holes then 1 else a[i] - a[i - 1]
  {
    assert a[0] <= a[i - 1] < a[i];
    CountSplit(c, a[0], a[i - 1] + 1, a[i] + 1);
    GapCosts(c, a, holes, i);
  }

  /** What a cover holds behind element `i - 1`, up to and including element `i`. */
  lemma GapCosts(c: set<Interval>, a: seq<int>, holes: set<int>, i: nat)
    requires Increasing(a) && 0 < i < |a| && Covered(c, a[i]) && (Hole(c, a, i) ==> i in holes)
    ensures Count(c, a[i - 1] + 1, a[i] + 1) >= if i in holes then 1 else a[i] - a[i - 1]
  {
    assert a[i - 1] < a[i];
    if i !in holes { CountAll(c, a[i - 1] + 1, a[i] + 1); }
  }

  lemma ProperSubset<T>(c: set<T>, c': set<T>, x: T)
    requires c' <= c && x in c && x !in c'
    ensures |c'| < |c|
  {
    assert c' + (c - c') == c;
    assert x in c - c';
  }

  /** A cover with `k` holes has more than `k` intervals. */
  lemma {:induction false} HolesSeparate(c: set<Interval>, a: seq<int>, holes: set<int>, n: nat)
    requires Increasing(a) && 1 <= n <= |a| && (forall i :: 0 <= i < n ==> Covered(c, a[i]))
    requires forall i :: i in holes ==> Hole(c, a, i)
    ensures OpenCount(holes, n) + 1 <= |c|
    decreases n
  {
    if n == 1 {
      var r :| r in c && r.0 <= a[0] <= r.1;
      ProperSubset(c, {}, r);
    } else if n - 1 !in holes {
      HolesSeparate(c, a, holes, n - 1);
    } else {
      var x :| a[n - 2] < x < a[n - 1] && !Covered(c, x);
      var left := set r | r in c && r.1 < x;
      var last :| last in c && last.0 <= a[n - 1] <= last.1;
      ProperSubset(c, left, last);
      forall i | 0 <= i < n - 1 ensures Covered(left, a[i]) {
        var r :| r in c && r.0 <= a[i] <= r.1;
        assert a[i] <= a[n - 2];
        assert r in left;
      }
      forall i | i in holes ensures Hole(left, a, i) {
        var y :| a[i - 1] < y < a[i] && !Covered(c, y);
        assert !Covered(left, y);
      }
      HolesSeparate(left, a, holes, n - 1);
    }
  }

  ghost predicate NoWideGap(a: seq<int>) {
    forall i :: 0 < i < |a| ==> a[i] - a[i - 1] <= INT_MAX
  }

  lemma NarrowestOpen(a: seq<int>, ks: seq<int>, n: nat) returns (c: nat)
    requires Choice(a, ks) && 0 < n <= |ks|
    ensures c < n && forall j :: 0 <= j < n ==> a[ks[c]] - a[ks[c] - 1] <= a[ks[j]] - a[ks[j] - 1]
  {
    if n == 1 {
      c := 0;
    } else {
      c := NarrowestOpen(a, ks, n - 1);
      if a[ks[n - 1]] - a[ks[n - 1] - 1] < a[ks[c]] - a[ks[c] - 1] { c := n - 1; }
    }
  }

  /** The narrowest open gap separates the open gaps from the closed ones. */
  lemma SplitByWidth(a: seq<int>, ks: seq<int>) returns (d: nat)
    requires Key(a) && Greedy(a, ks) && NoWideGap(a) && ks != []
    ensures Widest(a, Elems(ks), |a|, d)
  {
    var m := NarrowestOpen(a, ks, |ks|);
    assert a[ks[m] - 1] < a[ks[m]];
    d := a[ks[m]] - a[ks[m] - 1] - 1;
    forall i | 1 <= i < |a|
      ensures if i in Elems(ks) then a[i] - a[i - 1] - 1 >= d else a[i] - a[i - 1] - 1 <= d
    {
      if i !in Elems(ks) {
        assert a[i - 1] < a[i] && a[ks[m] - 1] < a[ks[m]];
        assert Gap(a, i) <= Gap(a, ks[m]);
      }
    }
  }

  lemma FewerPayLess(x: int, y: int, d: nat)
    requires x <= y
    ensures x * d <= y * d
  {
  }

  /** Without overflow, no choice of as many open gaps costs less than the greedy one. */
  lemma GreedyIsCheapest(a: seq<int>, ks: seq<int>, open: set<int>)
    requires Key(a) && a != [] && Greedy(a, ks) && NoWideGap(a) && ks != []
    requires OpenCount(open, |a|) <= |ks|
    ensures Cost(a, Elems(ks), |a|) <= Cost(a, open, |a|)
  {
    var d := SplitByWidth(a, ks);
    Exchange(a, Elems(ks), open, |a|, d);
    OpenCountUpTo(a, ks, |a|, |ks|);
    TollIsCount(open, |a|, d);
    TollIsCount(Elems(ks), |a|, d);
    FewerPayLess(OpenCount(open, |a|), |ks|, d);
  }

  /** Without overflow, no cover by as many intervals is smaller than the greedy one. */
  lemma GreedyIsBest(a: seq<int>, ks: seq<int>, c: set<Interval>)
    requires Key(a) && a != [] && Greedy(a, ks) && NoWideGap(a) && ks != []
    requires Covers(c, a) && |c| <= |ks| + 1
    ensures CoverSize(c, a) >= 1 + Cost(a, Elems(ks), |a|)
  {
    HolesSeparate(c, a, Holes(c, a), |a|);
    GreedyIsCheapest(a, ks, Holes(c, a));
    CoverCosts(c, a, Holes(c, a), |a|);
  }

  // A cover with chosen gaps

  /** The first element of the range that holds element `n - 1`. */
  function RangeStart(open: set<int>, n: nat): (p: nat)
    requires n >= 1
    ensures p < n
  {
    if n == 1 || n - 1 in open then n - 1 else RangeStart(open, n - 1)
  }

  /** The ranges that end before element `n - 1`'s own. */
  function Finished(a: seq<int>, open: set<int>, n: nat): set<Interval>
    requires 1 <= n <= |a|
  {
    if n == 1 then {}
    else if n - 1 in open then Finished(a, open, n - 1) + {(a[RangeStart(open, n - 1)], a[n - 2])}
    else Finished(a, open, n - 1)
  }

  function Ranges(a: seq<int>, open: set<int>, n: nat): set<Interval>
    requires 1 <= n <= |a|
  {
    Finished(a, open, n) + {(a[RangeStart(open, n)], a[n - 1])}
  }

  /** `r` runs from element `p` to element `q` with no open gap in between. */
  ghost predicate Solid(a: seq<int>, open: set<int>, r: Interval, p: int, q: int) {
    0 <= p <= q < |a| && r == (a[p], a[q]) && forall i :: p < i <= q ==> i !in open
  }

  ghost predicate Run(a: seq<int>, open: set<int>, r: Interval) {
    exists p, q :: Solid(a, open, r, p, q)
  }

  lemma {:induction false} RangeStartSolid(open: set<int>, n: nat)
    requires n >= 1
    ensures forall i :: RangeStart(open, n) < i < n ==> i !in open
  {
    if n > 1 && n - 1 !in open { RangeStartSolid(open, n - 1); }
  }

  lemma {:induction false} FinishedSolid(a: seq<int>, open: set<int>, n: nat)
    requires 1 <= n <= |a|
    ensures forall r :: r in Finished(a, open, n) ==> Run(a, open, r)
  {
    if n > 1 {
      FinishedSolid(a, open, n - 1);
      RangeStartSolid(open, n - 1);
      var r := (a[RangeStart(open, n - 1)], a[n - 2]);
      assert Solid(a, open, r, RangeStart(open, n - 1), n - 2);
    }
  }

  lemma {:induction false} FinishedFew(a: seq<int>, open: set<int>, n: nat)
    requires 1 <= n <= |a|
    ensures |Finished(a, open, n)| <= OpenCount(open, n)
  {
    if n > 1 {
      FinishedFew(a, open, n - 1);
      var r := (a[RangeStart(open, n - 1)], a[n - 2]);
      assert |Finished(a, open, n - 1) + {r}| <= |Finished(a, open, n - 1)| + 1;
    }
  }

  lemma {:induction false} RangesCover(a: seq<int>, open: set<int>, n: nat)
    requires Increasing(a) && 1 <= n <= |a|
    ensures forall i :: 0 <= i < n ==> Covered(Ranges(a, open, n), a[i])
  {
    RangeStartSolid(open, n);
    var last := (a[RangeStart(open, n)], a[n - 1]);
    assert last in Ranges(a, open, n);
    if n > 1 {
      RangesCover(a, open, n - 1);
      forall i | 0 <= i < n - 1 ensures Covered(Ranges(a, open, n), a[i]) {
        var r :| r in Ranges(a, open, n - 1) && r.0 <= a[i] <= r.1;
        if r !in Finished(a, open, n) {
          assert r == (a[RangeStart(open, n - 1)], a[n - 2]);
          assert last.0 <= a[i] <= last.1;
        }
      }
    }
  }

  lemma RunMisses(a: seq<int>, open: set<int>, r: Interval, i: int, x: int)
    requires Increasing(a) && 0 < i < |a| && i in open && a[i - 1] < x < a[i] && Run(a, open, r)
    ensures !(r.0 <= x <= r.1)
  {
    var p, q :| Solid(a, open, r, p, q);
    if q < i {
      assert a[q] <= a[i - 1];
    } else {
      assert i <= p;
      assert a[i] <= a[p];
    }
  }

  /** Inside an open gap nothing is covered. */
  lemma OpenGapIsHole(a: seq<int>, open: set<int>, i: int, x: int)
    requires Increasing(a) && 0 < i < |a| && i in open && a[i - 1] < x < a[i]
    ensures !Covered(Ranges(a, open, |a|), x)
  {
    RangeStartSolid(open, |a|);
    FinishedSolid(a, open, |a|);
    assert Solid(a, open, (a[RangeStart(open, |a|)], a[|a| - 1]), RangeStart(open, |a|), |a| - 1);
    forall r | r in Ranges(a, open, |a|) ensures !(r.0 <= x <= r.1) {
      assert Run(a, open, r);
      RunMisses(a, open, r, i, x);
    }
  }

  lemma {:induction false} RangesCost(a: seq<int>, open: set<int>, n: nat)
    requires Increasing(a) && 1 <= n <= |a|
    ensures Count(Ranges(a, open, |a|), a[0], a[n - 1] + 1) <= 1 + Cost(a, open, n)
  {
    var c := Ranges(a, open, |a|);
    if n == 1 {
      assert Count(c, a[0], a[0]) == 0;
    } else {
      RangesCost(a, open, n - 1);
      CountSplit(c, a[0], a[n - 2] + 1, a[n - 1] + 1);
      if n - 1 in open {
        forall x | a[n - 2] + 1 <= x < a[n - 1] ensures !Covered(c, x) { OpenGapIsHole(a, open, n - 1, x); }
        CountNone(c, a[n - 2] + 1, a[n - 1]);
      } else {
        CountAtMost(c, a[n - 2] + 1, a[n - 1] + 1);
      }
    }
  }

  lemma {:induction false} OpenOneMore(a: seq<int>, open: set<int>, i: int, n: nat)
    requires 1 <= n <= |a| && 1 <= i < |a| && i !in open
    ensures Cost(a, open + {i}, n) == Cost(a, open, n) - (if i < n then a[i] - a[i - 1] - 1 else 0)
    ensures OpenCount(open + {i}, n) == OpenCount(open, n) + (if i < n then 1 else 0)
  {
    if n > 1 { OpenOneMore(a, open, i, n - 1); }
  }

  /** A gap that overflows looks negative, is closed first and would have been the one to keep. */
  lemma WideGapIsClosed(a: seq<int>, ks: seq<int>, b: int)
    requires Key(a) && Greedy(a, ks) && |ks| + 1 < |a| && 0 < b < |a| && a[b] - a[b - 1] > INT_MAX
    ensures b !in ks && forall i :: 0 < i < |a| && i != b ==> a[i] - a[i - 1] < a[b] - a[b - 1]
  {
    forall i | 0 < i < |a| && i != b ensures a[i] - a[i - 1] < a[b] - a[b - 1] && Gap(a, i) > 0 {
      assert i < b ==> a[i] <= a[b - 1];
      assert b < i ==> a[b] <= a[i - 1];
      assert a[i - 1] < a[i];
    }
    assert Gap(a, b) < 0;
    var i := ClosedGap(a, ks);
    forall j | 0 <= j < |ks| ensures ks[j] != b {
      assert Gap(a, i) <= Gap(a, ks[j]);
    }
  }

  lemma ClosedGap(a: seq<int>, ks: seq<int>) returns (i: int)
    requires Choice(a, ks) && |ks| + 1 < |a|
    ensures 0 < i < |a| && i !in ks
  {
    if forall i :: 0 < i < |a| ==> i in Elems(ks) {
      OpenCountUpTo(a, ks, |a|, |ks|);
      AllOpen(Elems(ks), |a|);
      assert false;
    }
    i :| 0 < i < |a| && i !in Elems(ks);
  }

  lemma {:induction false} AllOpen(open: set<int>, n: nat)
    requires n >= 1 && forall i :: 0 < i < n ==> i in open
    ensures OpenCount(open, n) == n - 1
  {
    if n > 1 { AllOpen(open, n - 1); }
  }

  lemma SwapGap(a: seq<int>, ks: seq<int>, b: int)
    requires Increasing(a) && Choice(a, ks) && ks != [] && 0 < b < |a| && b !in ks
    ensures var open := Elems(ks) - {ks[0]} + {b};
      && OpenCount(open, |a|) == |ks|
      && Cost(a, open, |a|) == Cost(a, Elems(ks), |a|) - (a[b] - a[b - 1]) + (a[ks[0]] - a[ks[0] - 1])
  {
    var rest := Elems(ks) - {ks[0]};
    assert rest + {ks[0]} == Elems(ks);
    OpenOneMore(a, rest, ks[0], |a|);
    OpenOneMore(a, rest, b, |a|);
    OpenCountUpTo(a, ks, |a|, |ks|);
  }

  lemma SwapPays(a: seq<int>, ks: seq<int>, b: int)
    requires Key(a) && Greedy(a, ks) && ks != [] && |ks| + 1 < |a|
    requires 0 < b < |a| && a[b] - a[b - 1] > INT_MAX
    ensures var open := Elems(ks) - {ks[0]} + {b};
      OpenCount(open, |a|) == |ks| && Cost(a, open, |a|) < Cost(a, Elems(ks), |a|)
  {
    WideGapIsClosed(a, ks, b);
    SwapGap(a, ks, b);
    assert 0 < ks[0] < |a| && ks[0] != b;
  }

  lemma RangesSize(a: seq<int>, open: set<int>)
    requires Increasing(a) && a != []
    ensures |Ranges(a, open, |a|)| <= OpenCount(open, |a|) + 1
    ensures Covers(Ranges(a, open, |a|), a) && CoverSize(Ranges(a, open, |a|), a) <= 1 + Cost(a, open, |a|)
  {
    var c := Ranges(a, open, |a|);
    assert |c| <= OpenCount(open, |a|) + 1 by { FinishedFew(a, open, |a|); }
    assert CoverSize(c, a) <= 1 + Cost(a, open, |a|) by { RangesCost(a, open, |a|); }
    assert Covers(c, a) by { RangesCover(a, open, |a|); }
  }

  /** With an overflowing gap there is a smaller cover by as many intervals. */
  lemma WideGapLoses(a: seq<int>, ks: seq<int>, b: int) returns (c: set<Interval>)
    requires Key(a) && Greedy(a, ks) && ks != [] && |ks| + 1 < |a|
    requires 0 < b < |a| && a[b] - a[b - 1] > INT_MAX
    ensures Covers(c, a) && |c| <= |ks| + 1 && CoverSize(c, a) < 1 + Cost(a, Elems(ks), |a|)
  {
    var open := Elems(ks) - {ks[0]} + {b};
    SwapPays(a, ks, b);
    RangesSize(a, open);
    c := Ranges(a, open, |a|);
  }

  /**
   The compressed key is a smallest cover of the key by at most 100 intervals if and only if no two
   neighbouring elements are more than INT_MAX apart.
   */
  lemma CompressionIsBestIff(a: seq<int>, ks: seq<int>, d: seq<int>)
    requires Key(a) && |a| >= 2 * MAX_NUM_RANGE && |ks| == MAX_NUM_RANGE - 1 && Greedy(a, ks) && Flat(a, ks, d)
    ensures (forall c :: Covers(c, a) && |c| <= MAX_NUM_RANGE ==> CoverSize(c, a) >= InternalSize(d)) <==> NoWideGap(a)
  {
    SizeIsCost(a, ks, d);
    if NoWideGap(a) {
      forall c | Covers(c, a) && |c| <= MAX_NUM_RANGE ensures CoverSize(c, a) >= InternalSize(d) {
        GreedyIsBest(a, ks, c);
      }
    } else {
      var c := WideLoses(a, ks);
    }
  }

  /** A key that loses: the least integer, and 200 others from 0 on. */
  lemma CompressionCanLose(ks: seq<int>, d: seq<int>)
    requires var a := [INT_MIN] + seq(200, i => 2 * i); |ks| == MAX_NUM_RANGE - 1 && Greedy(a, ks) && Flat(a, ks, d)
    ensures var a := [INT_MIN] + seq(200, i => 2 * i);
      Key(a) && exists c :: Covers(c, a) && |c| <= MAX_NUM_RANGE && CoverSize(c, a) < InternalSize(d)
  {
    var a := [INT_MIN] + seq(200, i => 2 * i);
    assert a[1] - a[0] > INT_MAX;
    CompressionIsBestIff(a, ks, d);
  }

  lemma WideLoses(a: seq<int>, ks: seq<int>) returns (c: set<Interval>)
    requires Key(a) && Greedy(a, ks) && ks != [] && |ks| + 1 < |a| && !NoWideGap(a)
    ensures Covers(c, a) && |c| <= |ks| + 1 && CoverSize(c, a) < 1 + Cost(a, Elems(ks), |a|)
  {
    var b :| 0 < b < |a| && a[b] - a[b - 1] > INT_MAX;
    c := WideGapLoses(a, ks, b);
  }
}
