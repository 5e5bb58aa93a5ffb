/**
 The check of all levels, from the root down (contrib/amcheck/verify_nbtree.c, bt_check_every_level), and
 what an index without ignorable pages looks like that it accepts.
 */
module BtreeCheckLevels {
  import opened BtreeCheck
  import opened BtreeCheckWalk

  /** The block the next level down begins with: the first downlink, or none below a leaf. */
  function Down(ix: Index, b: nat): nat
    requires Readable(ix, b)
  {
    var p := ix.pages[b];
    if p.leaf then P_NONE else p.lines[FirstData(p)].child
  }

  /** The block the descent from the root by first downlinks meets on level `n` below it. */
  ghost function Leftmost(ix: Index, n: nat): nat {
    if n == 0 then ix.root else
      var b := Leftmost(ix, n - 1);
      if Readable(ix, b) then Down(ix, b) else P_NONE
  }

  /** The check of level `n` below the root. */
  ghost function TaskAt(ix: Index, n: nat): Task
    requires n <= ix.level
  {
    Task(ix, ix.level - n, Leftmost(ix, n), n == 0)
  }

  /** Level `n` is there and is accepted. */
  ghost predicate PassesLevel(ix: Index, n: nat) {
    n <= ix.level && Leftmost(ix, n) != P_NONE && Accepts(TaskAt(ix, n))
  }

  ghost predicate Passed(ix: Index, n: nat) { forall k :: 0 <= k < n ==> PassesLevel(ix, k) }

  /** Exactly the first `n` levels are there, and they are accepted. */
  ghost predicate PassedAll(ix: Index, n: nat) { Passed(ix, n) && Leftmost(ix, n) == P_NONE }

  /** All levels are accepted, down to where there is no further one. */
  ghost predicate AcceptsAll(ix: Index) { exists n :: PassedAll(ix, n) }

  /** If the check gets to level `n`, the check of that level ends. */
  ghost predicate EndsAt(ix: Index, n: nat) {
    n <= ix.level && Passed(ix, n) && Leftmost(ix, n) != P_NONE ==> !Endless(TaskAt(ix, n))
  }

  ghost predicate EndsAll(ix: Index) { forall n :: EndsAt(ix, n) }

  /** An accepted level begins with a live page. */
  lemma StartsLive(t: Task)
    requires Accepts(t)
    ensures Readable(t.ix, t.start) && !Ignored(t.ix.pages[t.start]) && t.ix.pages[t.start].level == t.level
  {
    var m :| 0 < m && PassesUpTo(t, m) && Block(t, m) == P_NONE;
    assert PassesAt(t, m - 1) && PassesAt(t, 0);
  }

  lemma NotAccepted(ix: Index, n: nat)
    requires Passed(ix, n) && Leftmost(ix, n) != P_NONE && !PassesLevel(ix, n)
    ensures !AcceptsAll(ix)
  {
    forall d: nat ensures !PassedAll(ix, d) {
      assert d < n ==> PassesLevel(ix, d);
      assert d > n && Passed(ix, d) ==> PassesLevel(ix, n);
    }
  }

  lemma OneMorePassed(ix: Index, n: nat)
    requires Passed(ix, n) && PassesLevel(ix, n)
    ensures Passed(ix, n + 1) && Readable(ix, Leftmost(ix, n))
    ensures Leftmost(ix, n + 1) == Down(ix, Leftmost(ix, n)) && (n == ix.level ==> Leftmost(ix, n + 1) == P_NONE)
  {
    StartsLive(TaskAt(ix, n));
  }

  lemma AllAccepted(ix: Index, n: nat)
    requires Passed(ix, n) && Leftmost(ix, n) == P_NONE
    ensures AcceptsAll(ix)
  {
    assert PassedAll(ix, n);
  }

  /** Where the loop over the levels is. */
  ghost predicate AtLevel(ix: Index, n: nat, leftmost: nat, level: nat, isRoot: bool) {
    && Passed(ix, n) && leftmost == Leftmost(ix, n) && (isRoot <==> n == 0)
    && (leftmost != P_NONE ==> n <= ix.level && level == ix.level - n)
  }

  /** Checks a level and gives the block the next one begins with. */
  method OneLevel(ix: Index, leftmost: nat, level: nat, isRoot: bool, ghost n: nat) returns (ok: bool, down: nat)
    requires EndsAll(ix) && AtLevel(ix, n, leftmost, level, isRoot) && leftmost != P_NONE
    ensures !ok ==> !AcceptsAll(ix)
    ensures ok ==> AtLevel(ix, n + 1, down, if level > 0 then level - 1 else level, false)
  {
    down := P_NONE;
    assert EndsAt(ix, n) && TaskAt(ix, n) == Task(ix, level, leftmost, isRoot);
    ok := LevelCheck(Task(ix, level, leftmost, isRoot));
    if ok {
      OneMorePassed(ix, n);
      down := Down(ix, leftmost);
    } else {
      NotAccepted(ix, n);
    }
  }

  /**
   bt_check_every_level in read-only mode: unless the check of some level is endless, it ends and accepts
   exactly the indexes all of whose levels are accepted, down to where there is none.
   */
  method CheckEveryLevel(ix: Index) returns (ok: bool)
    requires EndsAll(ix)
    ensures ok <==> AcceptsAll(ix)
  {
    var leftmost, level, isRoot := ix.root, ix.level, true;
    ghost var n := 0;
    while leftmost != P_NONE
      invariant AtLevel(ix, n, leftmost, level, isRoot)
      decreases ix.level + 1 - n
    {
      ok, leftmost := OneLevel(ix, leftmost, level, isRoot, n);
      if !ok {
        return;
      }
      isRoot := false;
      level, n := if level > 0 then level - 1 else level, n + 1;
    }
    AllAccepted(ix, n);
    ok := true;
  }

  // Levels of live pages

  /** A level without fault: its blocks from left to right, linked both ways. */
  ghost predicate LevelOk(ix: Index, level: nat, path: seq<nat>) {
    |path| > 0 && (forall k :: 0 <= k < |path| ==> StepOk(ix, level, path, k)) && EndOk(ix, path)
  }

  ghost predicate EndOk(ix: Index, path: seq<nat>) {
    |path| > 0 && Readable(ix, path[|path| - 1]) && ix.pages[path[|path| - 1]].next == P_NONE
  }

  ghost predicate StepOk(ix: Index, level: nat, path: seq<nat>, k: nat) {
    && k < |path| && Readable(ix, path[k])
    && var p := ix.pages[path[k]];
       && !Ignored(p) && p.level == level && TargetOk(ix, p)
       && p.prev == (if k == 0 then P_NONE else path[k - 1])
       && (k + 1 < |path| ==> p.next == path[k + 1])
  }

  /** Left and right links agree, so no block is met twice. */
  lemma {:induction false} NotTwice(ix: Index, level: nat, path: seq<nat>, i: nat, j: nat)
    requires i < j < |path| && (forall k :: 0 <= k < |path| ==> StepOk(ix, level, path, k))
    ensures path[i] != path[j]
    decreases j
  {
    assert StepOk(ix, level, path, i) && StepOk(ix, level, path, j) && StepOk(ix, level, path, j - 1);
    if i > 0 { NotTwice(ix, level, path, i - 1, j - 1); }
  }

  ghost predicate IsRoot(ix: Index, b: nat) { b < |ix.pages| && ix.pages[b].root }

  /** `path` is the level that the task is to check. */
  ghost predicate LevelFor(t: Task, path: seq<nat>) {
    LevelOk(t.ix, t.level, path) && path[0] == t.start && (t.isRoot ==> IsRoot(t.ix, t.start))
  }

  /** The blocks of the first `m` steps. */
  ghost function Blocks(t: Task, m: nat): (path: seq<nat>)
    ensures |path| == m && forall k :: 0 <= k < m ==> path[k] == Block(t, k)
  {
    seq(m, k requires 0 <= k < m => Block(t, k))
  }

  lemma PassedStep(t: Task, m: nat, k: nat)
    requires AllLive(t.ix) && k < m && PassesAt(t, k)
    ensures StepOk(t.ix, t.level, Blocks(t, m), k)
  {
  }

  lemma AcceptedPath(t: Task) returns (path: seq<nat>)
    requires AllLive(t.ix) && Accepts(t)
    ensures LevelFor(t, path)
  {
    var m: nat :| 0 < m && PassesUpTo(t, m) && Block(t, m) == P_NONE;
    path := Blocks(t, m);
    forall k | 0 <= k < m ensures StepOk(t.ix, t.level, path, k) {
      assert PassesAt(t, k);
      PassedStep(t, m, k);
    }
    assert PassesAt(t, 0) && PassesAt(t, m - 1);
  }

  lemma {:induction false} PathIsWalk(t: Task, path: seq<nat>, k: nat)
    requires LevelFor(t, path) && k < |path|
    ensures Block(t, k) == path[k]
  {
    if k > 0 {
      PathIsWalk(t, path, k - 1);
      assert StepOk(t.ix, t.level, path, k - 1);
    }
  }

  lemma PathPasses(t: Task, path: seq<nat>, k: nat)
    requires LevelFor(t, path) && k < |path|
    ensures PassesAt(t, k)
  {
    assert StepOk(t.ix, t.level, path, k) && StepOk(t.ix, t.level, path, 0);
    PathIsWalk(t, path, k);
    if k > 0 {
      PathIsWalk(t, path, k - 1);
      NotTwice(t.ix, t.level, path, k - 1, k);
      assert StepOk(t.ix, t.level, path, k - 1);
    }
  }

  lemma PathAccepted(t: Task, path: seq<nat>)
    requires LevelFor(t, path)
    ensures Accepts(t)
  {
    forall k | 0 <= k < |path| ensures PassesAt(t, k) { PathPasses(t, path, k); }
    PathIsWalk(t, path, |path| - 1);
    assert PassesUpTo(t, |path|) && Block(t, |path|) == P_NONE;
  }

  // Indexes of live pages

  ghost predicate LevelAt(ix: Index, levels: seq<seq<nat>>, i: nat) {
    && i < |levels| && i <= ix.level && LevelOk(ix, ix.level - i, levels[i])
    && (i > 0 ==> levels[i - 1] != [] && Readable(ix, levels[i - 1][0]) && levels[i][0] == Down(ix, levels[i - 1][0]))
  }

  /** The levels from the root down, each without fault, each beginning below the one above it. */
  ghost predicate LevelsOk(ix: Index, levels: seq<seq<nat>>) {
    && (forall i :: 0 <= i < |levels| ==> |levels[i]| > 0)
    && (levels != [] ==> levels[0][0] == ix.root && IsRoot(ix, ix.root))
    && forall i :: 0 <= i < |levels| ==> LevelAt(ix, levels, i)
  }

  /** Levels without fault all the way down, to where there is no further one. */
  ghost predicate Complete(ix: Index, levels: seq<seq<nat>>) {
    LevelsOk(ix, levels) &&
    if ix.root == P_NONE then levels == []
    else levels != [] && Readable(ix, Last(levels)) && Down(ix, Last(levels)) == P_NONE
  }

  ghost function Last(levels: seq<seq<nat>>): nat {
    if levels != [] && levels[|levels| - 1] != [] then levels[|levels| - 1][0] else 0
  }

  lemma MoreLevels(ix: Index, levels: seq<seq<nat>>, path: seq<nat>) returns (more: seq<seq<nat>>)
    requires LevelsOk(ix, levels) && |levels| <= ix.level && LevelOk(ix, ix.level - |levels|, path)
    requires levels == [] ==> path[0] == ix.root && IsRoot(ix, ix.root)
    requires levels != [] ==> Readable(ix, Last(levels)) && path[0] == Down(ix, Last(levels))
    ensures more == levels + [path] && LevelsOk(ix, more)
  {
    more := levels + [path];
    forall i | 0 <= i < |more| ensures LevelAt(ix, more, i) {
      if i < |levels| { assert LevelAt(ix, levels, i); }
    }
  }

  lemma {:induction false} LevelsStartLeftmost(ix: Index, levels: seq<seq<nat>>, i: nat)
    requires LevelsOk(ix, levels) && i < |levels|
    ensures levels[i][0] == Leftmost(ix, i) && Readable(ix, Leftmost(ix, i))
  {
    assert LevelAt(ix, levels, i) && StepOk(ix, ix.level - i, levels[i], 0);
    if i > 0 { LevelsStartLeftmost(ix, levels, i - 1); }
  }

  lemma {:induction false} PassedLevels(ix: Index, n: nat) returns (levels: seq<seq<nat>>)
    requires AllLive(ix) && Passed(ix, n)
    ensures LevelsOk(ix, levels) && |levels| == n
  {
    if n == 0 {
      levels := [];
    } else {
      assert PassesLevel(ix, n - 1);
      levels := PassedLevels(ix, n - 1);
      var path := AcceptedPath(TaskAt(ix, n - 1));
      if n > 1 { LevelsStartLeftmost(ix, levels, n - 2); }
      levels := MoreLevels(ix, levels, path);
    }
  }

  lemma LevelsPassed(ix: Index, levels: seq<seq<nat>>)
    requires LevelsOk(ix, levels)
    ensures Passed(ix, |levels|)
  {
    forall k | 0 <= k < |levels| ensures PassesLevel(ix, k) {
      assert LevelAt(ix, levels, k);
      LevelsStartLeftmost(ix, levels, k);
      PathAccepted(TaskAt(ix, k), levels[k]);
    }
  }

  lemma CompletePasses(ix: Index, levels: seq<seq<nat>>)
    requires Complete(ix, levels)
    ensures AcceptsAll(ix)
  {
    LevelsPassed(ix, levels);
    if levels != [] { LevelsStartLeftmost(ix, levels, |levels| - 1); }
    AllAccepted(ix, |levels|);
  }

  lemma PassedIsComplete(ix: Index, n: nat) returns (levels: seq<seq<nat>>)
    requires AllLive(ix) && PassedAll(ix, n)
    ensures Complete(ix, levels)
  {
    levels := PassedLevels(ix, n);
    if n > 0 {
      assert PassesLevel(ix, 0);
      LevelsStartLeftmost(ix, levels, n - 1);
    }
  }

  /** Where all pages are live, the check accepts exactly the indexes with levels without fault all the way down. */
  lemma CompleteIff(ix: Index)
    requires AllLive(ix)
    ensures EndsAll(ix) && (AcceptsAll(ix) <==> exists levels :: Complete(ix, levels))
  {
    forall n: nat ensures EndsAt(ix, n) {
      if n <= ix.level { LiveEnds(TaskAt(ix, n)); }
    }
    if n :| PassedAll(ix, n) {
      var levels := PassedIsComplete(ix, n);
    }
    if levels :| Complete(ix, levels) {
      CompletePasses(ix, levels);
    }
  }
}
