/**
 The check of one level in read-only mode when ignorable pages may be in the way: the walk from page to
 page and, inside the check of a page, the search for the next page that is not to be ignored.
 */
module BtreeCheckWalk {
  import opened BtreeCheck

  /** One step of the level: what it is to check. */
  datatype Task = Task(ix: Index, level: nat, start: nat, isRoot: bool)

  ghost function Left(t: Task, n: nat): nat {
    if n == 0 then P_NONE else Walk(t.ix, t.start, n - 1)
  }

  ghost function Block(t: Task, n: nat): nat { Walk(t.ix, t.start, n) }

  ghost predicate HalfDead(ix: Index, b: nat) { b < |ix.pages| && ix.pages[b].halfDead }

  /**
   A live block passes all that comes before the check of its items: its left link names the block it was
   reached from. As the first live page must also have no left link, it must be the start.
   */
  ghost predicate Linked(t: Task, left: nat, b: nat) {
    && Readable(t.ix, b) && !Ignored(t.ix.pages[b]) && t.ix.pages[b].prev == left
    && t.ix.pages[b].level == t.level && !HalfDead(t.ix, t.start)
    && (left == P_NONE && t.isRoot ==> t.ix.pages[b].root)
  }

  /** Block `b` is passed without an error. A half-dead page is skipped. */
  ghost predicate Passes(t: Task, left: nat, b: nat) {
    if HalfDead(t.ix, b) then Skipped(t.ix, b) && !t.ix.pages[b].deleted && b != left && b != t.ix.pages[b].prev
    else Linked(t, left, b) && TargetOk(t.ix, t.ix.pages[b]) && b != left
  }

  ghost predicate PassesAt(t: Task, n: nat) { Passes(t, Left(t, n), Block(t, n)) }

  ghost predicate PassesUpTo(t: Task, n: nat) { forall k :: 0 <= k < n ==> PassesAt(t, k) }

  /** The search for a right page that begins at block `c` never ends. */
  ghost predicate SearchesOn(ix: Index, c: nat) { forall n :: Skipped(ix, Walk(ix, c, n)) }

  /** The walk gets to its page number `n`, and the check of that page gets to the search. */
  ghost predicate SearchesAt(t: Task, n: nat) {
    PassesUpTo(t, n) && Linked(t, Left(t, n), Block(t, n)) && Searches(t.ix, t.ix.pages[Block(t, n)])
  }

  /** The check of the level never ends: there is always a next page, or a search that never ends. */
  ghost predicate Endless(t: Task) {
    (forall n :: PassesAt(t, n)) || exists n :: SearchesAt(t, n) && SearchesOn(t.ix, t.ix.pages[Block(t, n)].next)
  }

  // What can be seen within as many steps as there are blocks

  /** After `j` steps without an error, the walk is at a half-dead page it has met before. */
  ghost predicate MeetsAgain(t: Task, i: nat, j: nat) {
    i < j <= |t.ix.pages| && Block(t, i) == Block(t, j) && HalfDead(t.ix, Block(t, j)) && PassesUpTo(t, j + 1)
  }

  /** After `j` steps, the search is at an ignorable page it has met before. */
  ghost predicate FindsAgain(ix: Index, c: nat, i: nat, j: nat) {
    i < j <= |ix.pages| && Walk(ix, c, i) == Walk(ix, c, j) && forall k :: 0 <= k <= j ==> Skipped(ix, Walk(ix, c, k))
  }

  /** Going back from a block met twice, the left links of live pages lead to a half-dead page met twice. */
  lemma {:induction false} BackToHalfDead(t: Task, i: nat, j: nat)
    requires i < j <= |t.ix.pages| && Block(t, i) == Block(t, j) && PassesUpTo(t, j + 1)
    ensures exists a, b :: MeetsAgain(t, a, b)
    decreases j
  {
    assert PassesAt(t, i) && PassesAt(t, j) && PassesAt(t, j - 1);
    if HalfDead(t.ix, Block(t, j)) {
      assert MeetsAgain(t, i, j);
    } else {
      assert PassesUpTo(t, j - 1 + 1);
      BackToHalfDead(t, i - 1, j - 1);
    }
  }

  // A walk through finitely many blocks meets one of them twice.

  function Blocks(n: nat): (s: set<nat>)
    ensures forall b :: b in s <==> 0 <= b < n
  {
    if n == 0 then {} else Blocks(n - 1) + {n - 1}
  }

  lemma OneMore(s: set<nat>, b: nat)
    requires b !in s
    ensures |s + {b}| == |s| + 1
  {
  }

  lemma {:induction false} CountBlocks(n: nat)
    ensures |Blocks(n)| == n
  {
    if n > 0 {
      CountBlocks(n - 1);
      OneMore(Blocks(n - 1), n - 1);
    }
  }

  ghost predicate Met(ix: Index, start: nat, n: nat, b: nat) {
    exists k :: 0 <= k < n && Walk(ix, start, k) == b
  }

  lemma {:induction false} Distinct(ix: Index, start: nat, n: nat) returns (met: set<nat>)
    requires forall i, j :: 0 <= i < j < n ==> Walk(ix, start, i) != Walk(ix, start, j)
    ensures |met| == n && forall b :: b in met ==> Met(ix, start, n, b)
  {
    if n == 0 {
      met := {};
    } else {
      var less := Distinct(ix, start, n - 1);
      met := less + {Walk(ix, start, n - 1)};
    }
  }

  lemma Fits(inner: set<nat>, outer: set<nat>)
    requires inner <= outer
    ensures |inner| <= |outer|
  {
    assert outer == inner + (outer - inner);
  }

  lemma MeetsTwice(ix: Index, start: nat)
    requires forall k :: 0 <= k <= |ix.pages| ==> Walk(ix, start, k) < |ix.pages|
    ensures exists i, j :: 0 <= i < j <= |ix.pages| && Walk(ix, start, i) == Walk(ix, start, j)
  {
    if forall i, j :: 0 <= i < j < |ix.pages| + 1 ==> Walk(ix, start, i) != Walk(ix, start, j) {
      var met := Distinct(ix, start, |ix.pages| + 1);
      CountBlocks(|ix.pages|);
      Fits(met, Blocks(|ix.pages|));
      assert false;
    }
  }

  // Once at an ignorable page again, walk and search repeat themselves.

  lemma {:induction false} Periodic(ix: Index, start: nat, i: nat, j: nat, n: nat)
    requires i < j <= n && Walk(ix, start, i) == Walk(ix, start, j)
    ensures Walk(ix, start, n) == Walk(ix, start, n - (j - i))
    decreases n
  {
    if n > j { Periodic(ix, start, i, j, n - 1); }
  }

  lemma {:induction false} KeepsPassing(t: Task, i: nat, j: nat, n: nat)
    requires MeetsAgain(t, i, j)
    ensures PassesAt(t, n)
    decreases n
  {
    if n > j {
      var m := n - (j - i);
      KeepsPassing(t, i, j, m);
      Periodic(t.ix, t.start, i, j, n);
      Periodic(t.ix, t.start, i, j, n - 1);
    }
  }

  lemma {:induction false} KeepsSkipping(ix: Index, c: nat, i: nat, j: nat, n: nat)
    requires FindsAgain(ix, c, i, j)
    ensures Skipped(ix, Walk(ix, c, n))
    decreases n
  {
    if n > j {
      KeepsSkipping(ix, c, i, j, n - (j - i));
      Periodic(ix, c, i, j, n);
    }
  }

  lemma SearchesOnIff(ix: Index, c: nat)
    ensures SearchesOn(ix, c) <==> exists i, j :: FindsAgain(ix, c, i, j)
  {
    if i, j :| FindsAgain(ix, c, i, j) {
      forall n ensures Skipped(ix, Walk(ix, c, n)) { KeepsSkipping(ix, c, i, j, n); }
    } else if SearchesOn(ix, c) {
      forall k | 0 <= k <= |ix.pages| ensures Walk(ix, c, k) < |ix.pages| {
        assert Skipped(ix, Walk(ix, c, k));
      }
      MeetsTwice(ix, c);
      var i, j :| 0 <= i < j <= |ix.pages| && Walk(ix, c, i) == Walk(ix, c, j);
      assert FindsAgain(ix, c, i, j);
    }
  }

  /** A walk of more steps than there are blocks meets a half-dead page twice. */
  lemma LongWalkMeetsAgain(t: Task, n: nat)
    requires n > |t.ix.pages| && PassesUpTo(t, n)
    ensures exists i, j :: MeetsAgain(t, i, j)
  {
    forall k | 0 <= k <= |t.ix.pages| ensures Walk(t.ix, t.start, k) < |t.ix.pages| {
      assert PassesAt(t, k);
    }
    MeetsTwice(t.ix, t.start);
    var i, j :| 0 <= i < j <= |t.ix.pages| && Walk(t.ix, t.start, i) == Walk(t.ix, t.start, j);
    BackToHalfDead(t, i, j);
  }

  lemma WalksOnIff(t: Task)
    ensures (forall n :: PassesAt(t, n)) <==> exists i, j :: MeetsAgain(t, i, j)
  {
    if i, j :| MeetsAgain(t, i, j) {
      forall n ensures PassesAt(t, n) { KeepsPassing(t, i, j, n); }
    } else if forall n :: PassesAt(t, n) {
      LongWalkMeetsAgain(t, |t.ix.pages| + 1);
    }
  }

  /** A page at which the search never ends is not passed, so a check does one or the other. */
  lemma SearchIsNoPass(t: Task, n: nat)
    requires SearchesAt(t, n) && SearchesOn(t.ix, t.ix.pages[Block(t, n)].next)
    ensures !PassesAt(t, n)
  {
    var p := t.ix.pages[Block(t, n)];
    forall k ensures !StopsAt(t.ix, p.next, k) { assert Skipped(t.ix, Walk(t.ix, p.next, k)); }
    assert !ItemOk(t.ix, p, |p.lines| - 1);
  }

  /** A search from one of the first pages of the walk is at an ignorable page it has met before. */
  ghost predicate SearchMeetsAgain(t: Task, n: nat, i: nat, j: nat) {
    n <= |t.ix.pages| && SearchesAt(t, n) && FindsAgain(t.ix, t.ix.pages[Block(t, n)].next, i, j)
  }

  lemma EndlessSearchMeets(t: Task, n: nat)
    requires SearchesAt(t, n) && SearchesOn(t.ix, t.ix.pages[Block(t, n)].next)
    ensures (exists i, j :: MeetsAgain(t, i, j)) || exists i, j :: SearchMeetsAgain(t, n, i, j)
  {
    if n > |t.ix.pages| {
      LongWalkMeetsAgain(t, n);
    } else {
      SearchesOnIff(t.ix, t.ix.pages[Block(t, n)].next);
      var i, j :| FindsAgain(t.ix, t.ix.pages[Block(t, n)].next, i, j);
      assert SearchMeetsAgain(t, n, i, j);
    }
  }

  /**
   The check of a level never ends exactly when, within as many steps as there are blocks, the walk meets
   a half-dead page twice, or a search that the walk gets to meets an ignorable page twice.
   */
  lemma EndlessIff(t: Task)
    ensures Endless(t) <==> (exists i, j :: MeetsAgain(t, i, j)) || exists n, i, j :: SearchMeetsAgain(t, n, i, j)
  {
    WalksOnIff(t);
    forall n | SearchesAt(t, n) && SearchesOn(t.ix, t.ix.pages[Block(t, n)].next)
      ensures (exists i, j :: MeetsAgain(t, i, j)) || exists i, j :: SearchMeetsAgain(t, n, i, j)
    {
      EndlessSearchMeets(t, n);
    }
    forall n, i, j | SearchMeetsAgain(t, n, i, j) ensures SearchesOn(t.ix, t.ix.pages[Block(t, n)].next) {
      SearchesOnIff(t.ix, t.ix.pages[Block(t, n)].next);
    }
  }

  // The check itself

  /** The walk passes all pages up to the right end of the level. */
  ghost predicate Accepts(t: Task) { exists m :: 0 < m && PassesUpTo(t, m) && Block(t, m) == P_NONE }

  /** One round of the loop over a level; `found` says that a live page has been seen. */
  method PageCheck(t: Task, left: nat, b: nat, found: bool) returns (ok: bool, found': bool)
    requires found <==> left != P_NONE && !HalfDead(t.ix, t.start)
    requires left == P_NONE ==> b == t.start
    requires Linked(t, left, b) && Searches(t.ix, t.ix.pages[b]) ==> SearchEnds(t.ix, t.ix.pages[b].next)
    ensures ok <==> Passes(t, left, b)
    ensures ok ==> (found' <==> !HalfDead(t.ix, t.start))
  {
    found' := found;
    if !Readable(t.ix, b) {
      return false, found';
    }
    var p := t.ix.pages[b];
    if Ignored(p) {
      ok := !p.deleted && p.next != P_NONE;
    } else {
      if !found {
        if p.prev != P_NONE || (t.isRoot && !p.root) {
          return false, found';
        }
        found' := true;
      }
      if p.prev != left || p.level != t.level {
        return false, found';
      }
      ok := TargetCheck(t.ix, p);
    }
    if ok && (b == left || b == p.prev) {
      ok := false;
    }
  }

  /** A search that does not go on for ever ends. */
  lemma SearchesOnOrEnds(ix: Index, c: nat)
    requires !SearchesOn(ix, c)
    ensures SearchEnds(ix, c)
  {
    var n :| !Skipped(ix, Walk(ix, c, n));
    FirstStop(ix, c, n);
  }

  lemma {:induction false} FirstStop(ix: Index, c: nat, n: nat)
    requires !Skipped(ix, Walk(ix, c, n))
    ensures SearchEnds(ix, c)
  {
    if forall k :: 0 <= k < n ==> Skipped(ix, Walk(ix, c, k)) {
      assert StopsAt(ix, c, n);
    } else {
      var k :| 0 <= k < n && !Skipped(ix, Walk(ix, c, k));
      FirstStop(ix, c, k);
    }
  }

  lemma SearchFromEnds(t: Task, n: nat)
    requires !Endless(t) && PassesUpTo(t, n) && Linked(t, Left(t, n), Block(t, n)) && Searches(t.ix, t.ix.pages[Block(t, n)])
    ensures SearchEnds(t.ix, t.ix.pages[Block(t, n)].next)
  {
    assert SearchesAt(t, n);
    SearchesOnOrEnds(t.ix, t.ix.pages[Block(t, n)].next);
  }

  /** No block before the `n`-th is the end of the level. */
  ghost predicate NoEnd(t: Task, n: nat) { forall k :: 0 <= k <= n ==> Block(t, k) != P_NONE }

  lemma OneFurther(t: Task, n: nat)
    requires PassesUpTo(t, n) && PassesAt(t, n)
    ensures PassesUpTo(t, n + 1) && 0 < Block(t, n) < |t.ix.pages|
    ensures Left(t, n + 1) == Block(t, n) && Block(t, n + 1) == t.ix.pages[Block(t, n)].next
  {
  }

  lemma Rejected(t: Task, n: nat)
    requires NoEnd(t, n) && !PassesAt(t, n)
    ensures !Accepts(t)
  {
    forall m | 0 < m && PassesUpTo(t, m) ensures Block(t, m) != P_NONE {
      assert m > n ==> PassesAt(t, n);
    }
  }

  /** Where the loop is before page `n`. */
  ghost predicate AtPage(t: Task, n: nat, left: nat, b: nat, found: bool) {
    && PassesUpTo(t, n) && NoEnd(t, n) && left == Left(t, n) && b == Block(t, n)
    && (left == P_NONE <==> n == 0) && (found <==> left != P_NONE && !HalfDead(t.ix, t.start))
  }

  method NextPage(t: Task, left: nat, b: nat, found: bool, ghost n: nat) returns (ok: bool, next: nat, found': bool)
    requires !Endless(t) && AtPage(t, n, left, b, found)
    ensures ok <==> PassesAt(t, n)
    ensures ok ==> next == Block(t, n + 1) && (next != P_NONE ==> AtPage(t, n + 1, b, next, found'))
  {
    if Linked(t, left, b) && Searches(t.ix, t.ix.pages[b]) { SearchFromEnds(t, n); }
    ok, found' := PageCheck(t, left, b, found);
    if ok {
      OneFurther(t, n);
      next := t.ix.pages[b].next;
    } else {
      next := P_NONE;
    }
  }

  /** bt_check_level_from_leftmost: unless it is endless, it accepts exactly the levels the walk passes through. */
  method LevelCheck(t: Task) returns (ok: bool)
    requires t.start != P_NONE && !Endless(t)
    ensures ok <==> Accepts(t)
  {
    var left, current, found := P_NONE, t.start, false;
    ghost var n := 0;
    ghost var stop: nat :| !PassesAt(t, stop);
    while true
      invariant n <= stop && AtPage(t, n, left, current, found)
      decreases stop - n
    {
      var next;
      ok, next, found := NextPage(t, left, current, found, n);
      if !ok {
        Rejected(t, n);
        return;
      }
      assert PassesUpTo(t, n + 1);
      left, current, n := current, next, n + 1;
      if current == P_NONE {
        return;
      }
    }
  }

  // Without ignorable pages the check always ends.

  ghost predicate AllLive(ix: Index) { forall b :: 0 < b < |ix.pages| ==> !Ignored(ix.pages[b]) }

  lemma LiveEnds(t: Task)
    requires AllLive(t.ix)
    ensures !Endless(t)
  {
    EndlessIff(t);
    forall i, j ensures !MeetsAgain(t, i, j) {
      assert MeetsAgain(t, i, j) ==> PassesAt(t, j);
    }
    forall c, i, j ensures !FindsAgain(t.ix, c, i, j) {
      assert !Skipped(t.ix, Walk(t.ix, c, 0));
    }
  }

  /** A half-dead page between two live ones, the second of which links back to it. */
  lemma WalkCanBeEndless()
    ensures exists ix :: AllReadable(ix) && (forall n :: PassesAt(Task(ix, 0, 1, false), n))
  {
    var high := [Line(0, 0)];
    var first := Page(true, false, false, false, false, P_NONE, 2, 0, high);
    var middle := Page(true, true, false, false, false, 1, 3, 0, high);
    var last := Page(true, false, false, false, false, 2, 2, 0, high);
    var ix := Index(1, 0, [first, first, middle, last]);
    var t := Task(ix, 0, 1, false);
    assert Walk(ix, 1, 0) == 1;
    assert Walk(ix, 1, 1) == 2;
    assert Walk(ix, 1, 2) == 3;
    assert Walk(ix, 1, 3) == 2;
    assert PassesUpTo(t, 4) by {
      assert PassesAt(t, 0) && PassesAt(t, 1) && PassesAt(t, 2) && PassesAt(t, 3);
    }
    assert MeetsAgain(t, 1, 3);
    WalksOnIff(t);
  }

  ghost predicate AllReadable(ix: Index) { forall b :: 0 < b < |ix.pages| ==> Readable(ix, b) }

  /** A live page with one item whose right page is half-dead and links to itself. */
  lemma SearchCanBeEndless()
    ensures exists ix :: AllReadable(ix) && Endless(Task(ix, 0, 1, false)) && !PassesAt(Task(ix, 0, 1, false), 0)
  {
    var first := Page(true, false, false, false, false, P_NONE, 2, 0, [Line(0, 0), Line(0, 0)]);
    var ring := Page(true, true, false, false, false, 1, 2, 0, [Line(0, 0)]);
    var ix := Index(1, 0, [first, first, ring]);
    var t := Task(ix, 0, 1, false);
    assert Walk(ix, 1, 0) == 1 && Walk(ix, 2, 0) == 2;
    assert Walk(ix, 2, 1) == 2;
    assert FindsAgain(ix, 2, 0, 1);
    SearchesOnIff(ix, 2);
    assert SearchesAt(t, 0);
    SearchIsNoPass(t, 0);
  }
}
