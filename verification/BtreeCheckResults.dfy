/** What a read-only btree check that found no fault has shown, and what it has not. */
module BtreeCheckResults {
  import opened BtreeCheck
  import opened BtreeCheckWalk
  import opened BtreeCheckLevels

  // Order within a level

  ghost predicate HasReal(ix: Index, b: nat) { b < |ix.pages| && FirstReal(ix.pages[b]) < |ix.pages[b].lines| }

  /** Item `i` of the real items of block `b`. */
  ghost predicate IsReal(ix: Index, b: nat, i: int) {
    b < |ix.pages| && FirstReal(ix.pages[b]) <= i < |ix.pages[b].lines|
  }

  ghost function Key(ix: Index, b: nat, i: int): int
    requires IsReal(ix, b, i)
  {
    ix.pages[b].lines[i].key
  }

  lemma {:induction false} PageSorted(ix: Index, b: nat, i: int, j: int)
    requires IsReal(ix, b, i) && IsReal(ix, b, j) && i <= j && TargetOk(ix, ix.pages[b])
    ensures Key(ix, b, i) <= Key(ix, b, j)
    decreases j - i
  {
    if i < j {
      PageSorted(ix, b, i, j - 1);
      assert ItemOk(ix, ix.pages[b], j - 1);
    }
  }

  /** Every real item of a page comes before every real item of the page to its right. */
  lemma NeighboursSorted(ix: Index, level: nat, path: seq<nat>, a: nat, i: int, j: int)
    requires LevelOk(ix, level, path) && a + 1 < |path| && IsReal(ix, path[a], i) && IsReal(ix, path[a + 1], j)
    ensures Key(ix, path[a], i) <= Key(ix, path[a + 1], j)
  {
    assert StepOk(ix, level, path, a) && StepOk(ix, level, path, a + 1);
    var p, r := ix.pages[path[a]], ix.pages[path[a + 1]];
    PageSorted(ix, path[a], i, |p.lines| - 1);
    assert ItemOk(ix, p, |p.lines| - 1);
    LiveNext(ix, p, p.lines[|p.lines| - 1].key);
    PageSorted(ix, path[a + 1], FirstReal(r), j);
  }

  /** Pages `a` to `b` all have a real item. */
  ghost predicate AllReal(ix: Index, path: seq<nat>, a: nat, b: nat) {
    a <= b < |path| && forall k :: a <= k <= b ==> HasReal(ix, path[k])
  }

  lemma {:induction false} PagesSorted(ix: Index, level: nat, path: seq<nat>, a: nat, i: int, b: nat, j: int)
    requires LevelOk(ix, level, path) && a < b && AllReal(ix, path, a, b)
    requires IsReal(ix, path[a], i) && IsReal(ix, path[b], j)
    ensures Key(ix, path[a], i) <= Key(ix, path[b], j)
    decreases b
  {
    if a + 1 == b {
      NeighboursSorted(ix, level, path, a, i, j);
    } else {
      var m := FirstReal(ix.pages[path[b - 1]]);
      assert HasReal(ix, path[b - 1]);
      PagesSorted(ix, level, path, a, i, b - 1, m);
      NeighboursSorted(ix, level, path, b - 1, m, j);
    }
  }

  /** The real items of a level, from left to right, do not decrease. */
  ghost predicate LevelSorted(ix: Index, path: seq<nat>) {
    forall a, i, b, j :: 0 <= a <= b < |path| && IsReal(ix, path[a], i) && IsReal(ix, path[b], j) && (a < b || i <= j) ==>
      Key(ix, path[a], i) <= Key(ix, path[b], j)
  }

  ghost predicate HasCount(ix: Index, b: nat, n: nat) {
    b < |ix.pages| && FirstReal(ix.pages[b]) + n == |ix.pages[b].lines|
  }

  /** How many real items the pages of a level have. */
  ghost predicate Counts(ix: Index, path: seq<nat>, counts: seq<nat>) {
    && |counts| == |path|
    && forall k :: 0 <= k < |path| ==> HasCount(ix, path[k], counts[k])
  }

  /** Page `m` has no real item, but there are some on both sides of it. */
  ghost predicate Hole(counts: seq<nat>, l: int, m: int, r: int) {
    0 <= l < m < r < |counts| && counts[l] > 0 && counts[m] == 0 && counts[r] > 0
  }

  lemma NoHoleSorted(ix: Index, path: seq<nat>, counts: seq<nat>)
    requires LevelOk(ix, 0, path) && Counts(ix, path, counts) && forall l, m, r :: !Hole(counts, l, m, r)
    ensures LevelSorted(ix, path)
  {
    forall a, i, b, j | 0 <= a <= b < |path| && IsReal(ix, path[a], i) && IsReal(ix, path[b], j) && (a < b || i <= j)
      ensures Key(ix, path[a], i) <= Key(ix, path[b], j)
    {
      if a == b {
        assert StepOk(ix, 0, path, a);
        PageSorted(ix, path[a], i, j);
      } else {
        forall k | a <= k <= b ensures HasReal(ix, path[k]) {
          assert HasCount(ix, path[k], counts[k]) && HasCount(ix, path[a], counts[a]) && HasCount(ix, path[b], counts[b]);
          assert !Hole(counts, a, k, b);
        }
        PagesSorted(ix, 0, path, a, i, b, j);
      }
    }
  }

  // An index that is out of order behind an empty page

  function Leaf(k: nat, n: nat, count: nat, key: int): Page {
    var high := if k + 1 < n then [Line(1, 0)] else [];
    Page(true, false, false, false, false, if k == 0 then P_NONE else k + 1, if k + 1 < n then k + 3 else P_NONE, 0,
         high + seq(count, _ => Line(key, 0)))
  }

  /** A root with a downlink to each of `n` leaves, which begin with block 2. */
  function Root(n: nat): Page {
    Page(false, false, false, true, false, P_NONE, P_NONE, 1, seq(n, (k: nat) => Line(0, k + 2)))
  }

  /** The root in block 1 and a leaf for each count, with key 1 up to leaf `m` and key 0 behind it. */
  function Tree(counts: seq<nat>, m: int): Index {
    var n := |counts|;
    Index(1, 1, [Root(n), Root(n)] + seq(n, k requires 0 <= k < n => Leaf(k, n, counts[k], if k <= m then 1 else 0)))
  }

  function Path(n: nat): seq<nat> { seq(n, k => k + 2) }

  lemma TreeLeaf(counts: seq<nat>, m: int, k: nat)
    requires k < |counts|
    ensures Tree(counts, m).pages[k + 2] == Leaf(k, |counts|, counts[k], if k <= m then 1 else 0)
    ensures Readable(Tree(counts, m), k + 2) && !Ignored(Tree(counts, m).pages[k + 2])
  {
  }

  lemma LeafOk(counts: seq<nat>, m: int, k: nat)
    requires 0 <= m < |counts| && counts[m] == 0 && k < |counts|
    ensures TargetOk(Tree(counts, m), Tree(counts, m).pages[k + 2])
  {
    var ix, n := Tree(counts, m), |counts|;
    TreeLeaf(counts, m, k);
    var p := ix.pages[k + 2];
    if k + 1 < n {
      TreeLeaf(counts, m, k + 1);
      LiveNext(ix, p, if k <= m then 1 else 0);
    }
    forall j | FirstReal(p) <= j < |p.lines| ensures ItemOk(ix, p, j) {
      assert k != m;
    }
  }

  lemma LeavesPass(counts: seq<nat>, m: int)
    requires 0 <= m < |counts| && counts[m] == 0
    ensures LevelOk(Tree(counts, m), 0, Path(|counts|))
  {
    forall k | 0 <= k < |counts| ensures StepOk(Tree(counts, m), 0, Path(|counts|), k) {
      TreeLeaf(counts, m, k);
      LeafOk(counts, m, k);
    }
    TreeLeaf(counts, m, |counts| - 1);
  }

  lemma DownlinkOk(counts: seq<nat>, m: int, k: nat)
    requires k < |counts|
    ensures ChildOk(Tree(counts, m), k + 2, 0)
  {
    TreeLeaf(counts, m, k);
  }

  lemma RootPasses(counts: seq<nat>, m: int)
    requires counts != []
    ensures LevelOk(Tree(counts, m), 1, [1])
  {
    var ix := Tree(counts, m);
    var p := ix.pages[1];
    forall j | FirstReal(p) <= j < |p.lines| ensures ItemOk(ix, p, j) { DownlinkOk(counts, m, j); }
    assert StepOk(ix, 1, [1], 0);
  }

  lemma TreePasses(counts: seq<nat>, m: int)
    requires 0 <= m < |counts| && counts[m] == 0
    ensures AllLive(Tree(counts, m)) && Complete(Tree(counts, m), [[1], Path(|counts|)])
  {
    var ix, levels := Tree(counts, m), [[1], Path(|counts|)];
    LeavesPass(counts, m);
    RootPasses(counts, m);
    forall b | 0 < b < |ix.pages| ensures !Ignored(ix.pages[b]) {
      if b > 1 { TreeLeaf(counts, m, b - 2); }
    }
    TreeLeaf(counts, m, 0);
    assert LevelAt(ix, levels, 0) && LevelAt(ix, levels, 1);
    assert LevelsOk(ix, levels);
  }

  lemma TreeCounts(counts: seq<nat>, m: int)
    ensures Counts(Tree(counts, m), Path(|counts|), counts)
  {
    forall k | 0 <= k < |counts| ensures HasCount(Tree(counts, m), k + 2, counts[k]) {
      TreeLeaf(counts, m, k);
    }
  }

  lemma TreeOutOfOrder(counts: seq<nat>, l: int, m: int, r: int)
    requires Hole(counts, l, m, r)
    ensures !LevelSorted(Tree(counts, m), Path(|counts|))
  {
    var ix, path := Tree(counts, m), Path(|counts|);
    TreeLeaf(counts, m, l);
    TreeLeaf(counts, m, r);
    var i, j := FirstReal(ix.pages[l + 2]), FirstReal(ix.pages[r + 2]);
    assert IsReal(ix, path[l], i) && IsReal(ix, path[r], j);
    assert Key(ix, path[l], i) == 1 && Key(ix, path[r], j) == 0;
  }

  /** An index that the check accepts, with its leaf level and how many items each leaf has. */
  ghost predicate Accepted(ix: Index, levels: seq<seq<nat>>, counts: seq<nat>) {
    && AllLive(ix) && Complete(ix, levels) && |levels| == ix.level + 1
    && Counts(ix, levels[ix.level], counts)
  }

  lemma HoleFails(counts: seq<nat>, l: int, m: int, r: int) returns (ix: Index, levels: seq<seq<nat>>)
    requires Hole(counts, l, m, r)
    ensures Accepted(ix, levels, counts) && !LevelSorted(ix, levels[ix.level])
  {
    TreePasses(counts, m);
    TreeCounts(counts, m);
    TreeOutOfOrder(counts, l, m, r);
    ix, levels := Tree(counts, m), [[1], Path(|counts|)];
  }

  lemma AcceptedSorted(ix: Index, levels: seq<seq<nat>>, counts: seq<nat>)
    requires Accepted(ix, levels, counts) && forall l, m, r :: !Hole(counts, l, m, r)
    ensures LevelSorted(ix, levels[ix.level])
  {
    assert LevelAt(ix, levels, ix.level);
    NoHoleSorted(ix, levels[ix.level], counts);
  }

  /**
   The leaf level of an accepted index is in order, whatever its keys, exactly when no leaf without items
   stands between leaves with items: the comparison with the right neighbour skips no empty page.
   */
  lemma OrderShownIff(counts: seq<nat>)
    ensures (forall ix, levels :: Accepted(ix, levels, counts) ==> LevelSorted(ix, levels[ix.level])) <==>
            (forall l, m, r :: !Hole(counts, l, m, r))
  {
    if l, m, r :| Hole(counts, l, m, r) {
      var ix, levels := HoleFails(counts, l, m, r);
    } else {
      forall ix, levels | Accepted(ix, levels, counts) ensures LevelSorted(ix, levels[ix.level]) {
        AcceptedSorted(ix, levels, counts);
      }
    }
  }

  // How far down the check gets

  /** A check that has accepted `n` levels has seen the leaves exactly when no first downlink on the way is block 0. */
  lemma LeavesReachedIff(ix: Index, n: nat)
    requires PassedAll(ix, n) && n > 0
    ensures n == ix.level + 1 <==> forall k :: 0 < k <= ix.level ==> Leftmost(ix, k) != P_NONE
  {
    assert PassesLevel(ix, n - 1);
    forall k | 0 < k < n ensures Leftmost(ix, k) != P_NONE { assert PassesLevel(ix, k); }
    assert n <= ix.level ==> Leftmost(ix, n) == P_NONE;
  }

  /** A leftmost downlink to block 0 ends the check above the leaf level, without an error. */
  lemma StopsEarly(level: nat)
    requires level > 0
    ensures exists ix: Index :: ix.level == level && PassedAll(ix, 1)
  {
    var root := Page(false, false, false, true, false, P_NONE, P_NONE, level, [Line(0, 0)]);
    var ix, levels: seq<seq<nat>> := Index(1, level, [root, root]), [[1]];
    assert StepOk(ix, level, levels[0], 0);
    assert LevelAt(ix, levels, 0);
    LevelsPassed(ix, levels);
    assert PassedAll(ix, 1);
  }
}
