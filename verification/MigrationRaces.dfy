/** The runs in which the protocol loses or duplicates rows, and the exact condition that rules them out. */
module MigrationRaces {
  import opened MigrationBitmap
  import opened Migration
  import opened MigrationSafety
  import opened MigrationWaits
  import opened Sequences

  lemma {:induction false} RunConcat(w: Setting, s0: State, t1: seq<Event>, s1: State, t2: seq<Event>, s2: State)
    requires Run(w, s0, t1, s1) && Run(w, s1, t2, s2)
    ensures Run(w, s0, t1 + t2, s2)
    decreases t1
  {
    if t1 == [] {
      assert t1 + t2 == t2;
    } else {
      RunConcat(w, Next(w, s0, t1[0]), t1[1..], s1, t2, s2);
      JoinTail(t1, t2);
    }
  }

  lemma ReachRefl(w: Setting, s: State)
    ensures Reach(w, s, s)
  {
    assert Run(w, s, [], s);
  }

  /** One more step. */
  lemma ReachStep(w: Setting, s0: State, s: State, b: nat, a: Action)
    requires Reach(w, s0, s) && Enabled(w, s, Event(b, a))
    ensures Reach(w, s0, Next(w, s, Event(b, a)))
  {
    var trace :| Run(w, s0, trace, s);
    var s' := Next(w, s, Event(b, a));
    assert Run(w, s', [], s');
    assert [Event(b, a)][1..] == [];
    assert Run(w, s, [Event(b, a)], s');
    RunConcat(w, s0, trace, s, [Event(b, a)], s');
  }

  /** The state after backend `b`, alone, has claimed the free row `t`. */
  function Claim(s: State, b: nat, t: Target): State {
    var p := At(s, b);
    PutWord(Put(s, b, p.(pc := Scanning, mine := p.mine + [t], txn := p.txn + multiset{t}, seen := p.seen + {t})),
            t, WordAt(s.words, WordOf(t)) + {LockBit(t)})
  }

  /** The state just before that claim reaches memory. */
  function Poised(s: State, b: nat, t: Target): State {
    var p := At(s, b);
    Put(s, b, p.(pc := Store(t, WordAt(s.words, WordOf(t))), seen := p.seen + {t}))
    .(locks := s.locks[LockOf(t) := b])
  }

  ghost predicate Free(w: Setting, s: State, b: nat, t: Target) {
    && At(s, b).pc == Scanning && At(s, b).copies && At(s, b).num == t.num && t in Work(w, b)
    && LockOf(t) !in s.locks && !Locked(s.words, t) && !Moved(s.words, t)
  }

  lemma PutPut(s: State, b: nat, p: Backend, q: Backend)
    ensures At(Put(s, b, p), b) == p && Put(Put(s, b, p), b, q) == Put(s, b, q)
  {
    assert s.backends[b := p][b := q] == s.backends[b := q];
  }

  lemma ReachRead(w: Setting, s0: State, s: State, b: nat, p: Backend)
    requires Reach(w, s0, Put(s, b, p))
    requires Reads(p.pc) && (p.pc.Marking? || p.pc.Undoing? ==> p.pc.k <= |p.mine|)
    ensures Reach(w, s0, Put(s, b, AfterRead(s.words, p)))
  {
    ReachStep(w, s0, Put(s, b, p), b, Go);
    PutPut(s, b, p, AfterRead(s.words, p));
  }

  lemma PoiseRun(w: Setting, s0: State, s: State, b: nat, t: Target)
    requires Reach(w, s0, s) && Free(w, s, b, t)
    ensures Reach(w, s0, Poised(s, b, t))
  {
    var p := At(s, b).(pc := Peek(t), seen := At(s, b).seen + {t});
    ReachStep(w, s0, s, b, Visit(t));
    ReachRead(w, s0, s, b, p);
    var s1 := s.(locks := s.locks[LockOf(t) := b]);
    PutPut(s, b, p.(pc := Acquire(t)), p.(pc := CheckMoved(t)));
    ReachStep(w, s0, Put(s, b, p.(pc := Acquire(t))), b, Go);
    ReachRead(w, s0, s1, b, p.(pc := CheckMoved(t)));
    ReachRead(w, s0, s1, b, p.(pc := CheckLock(t)));
    ReachRead(w, s0, s1, b, p.(pc := Load(t)));
  }

  lemma ClaimRun(w: Setting, s0: State, s: State, b: nat, t: Target)
    requires Reach(w, s0, s) && Free(w, s, b, t)
    ensures Reach(w, s0, Claim(s, b, t))
  {
    PoiseRun(w, s0, s, b, t);
    LandRun(w, s0, Poised(s, b, t), b, t);
    assert (s.locks[LockOf(t) := b]) - {LockOf(t)} == s.locks;
    PutPut(s, b, At(Poised(s, b, t), b), At(Claim(s, b, t), b));
  }

  /** The state after a poised claim has reached memory, whatever the word holds by then. */
  function Landed(s: State, b: nat, t: Target): State
    requires At(s, b).pc.Store?
  {
    var p := At(s, b);
    PutWord(Put(s, b, p.(pc := Scanning, mine := p.mine + [t], txn := p.txn + multiset{t})),
            t, p.pc.word + {LockBit(t)})
    .(locks := s.locks - {LockOf(t)})
  }

  lemma LandRun(w: Setting, s0: State, s: State, b: nat, t: Target)
    requires Reach(w, s0, s) && At(s, b).pc.Store? && At(s, b).pc.t == t && At(s, b).copies
    ensures Reach(w, s0, Landed(s, b, t))
  {
    var p := At(s, b);
    var s1 := PutWord(s, t, p.pc.word + {LockBit(t)});
    ReachStep(w, s0, s, b, Go);
    PutPut(s1, b, p.(pc := Release(t, Claimed)), At(Landed(s, b, t), b));
    ReachStep(w, s0, Put(s1, b, p.(pc := Release(t, Claimed))), b, Go);
  }

  /** The state after backend `b` has marked its only row and ended its statement. */
  function Finished(w: Setting, s: State, b: nat, t: Target): State {
    var p := At(s, b);
    PutWord(Put(s, b, p.(pc := AtCommit(w), mine := [], others := [])), t, WordAt(s.words, WordOf(t)) + {MoveBit(t)})
  }

  /** Marking the only row of `b`. */
  lemma MarkRun(w: Setting, s0: State, s: State, b: nat, t: Target)
    requires Reach(w, s0, s) && At(s, b).pc == Scanning && At(s, b).mine == [t]
    ensures Reach(w, s0, Put(PutWord(s, t, WordAt(s.words, WordOf(t)) + {MoveBit(t)}), b, At(s, b).(pc := Marking(1))))
  {
    var p := At(s, b);
    ReachStep(w, s0, s, b, Complete);
    ReachRead(w, s0, s, b, p.(pc := Marking(0)));
    MarkStoreRun(w, s0, s, b, p, t);
  }

  lemma MarkStoreRun(w: Setting, s0: State, s: State, b: nat, p: Backend, t: Target)
    requires p.mine == [t] && Reach(w, s0, Put(s, b, p.(pc := MarkStore(0, WordAt(s.words, WordOf(t))))))
    ensures Reach(w, s0, Put(PutWord(s, t, WordAt(s.words, WordOf(t)) + {MoveBit(t)}), b, p.(pc := Marking(1))))
  {
    var q := p.(pc := MarkStore(0, WordAt(s.words, WordOf(t))));
    ReachStep(w, s0, Put(s, b, q), b, Go);
    PutPut(s, b, q, p.(pc := Marking(1)));
  }

  lemma FinishRun(w: Setting, s0: State, s: State, b: nat, t: Target)
    requires Reach(w, s0, s)
    requires At(s, b).pc == Scanning && At(s, b).mine == [t] && At(s, b).others == []
    ensures Reach(w, s0, Finished(w, s, b, t))
  {
    var p := At(s, b);
    MarkRun(w, s0, s, b, t);
    var s1 := PutWord(s, t, WordAt(s.words, WordOf(t)) + {MoveBit(t)});
    ReachRead(w, s0, s1, b, p.(pc := Marking(1)));
    ReachStep(w, s0, Put(s1, b, p.(pc := Waiting)), b, Leave);
    PutPut(s1, b, p.(pc := Waiting), At(Finished(w, s, b, t), b));
  }

  /** Backend `b` has its claim of `t` loaded but not stored; backend `c` has scanned nothing yet. */
  function Standoff(b: nat, c: nat, t: Target): State {
    Poised(Put(Put(INIT, b, FRESH.(pc := Scanning, num := t.num)), c, FRESH.(pc := Scanning, num := t.num)), b, t)
  }

  lemma StandoffRun(w: Setting, b: nat, c: nat, t: Target)
    requires b != c && t in Work(w, b) && ValidTarget(t)
    ensures Reach(w, INIT, Standoff(b, c, t))
  {
    var p := FRESH.(pc := Scanning, num := t.num);
    ReachRefl(w, INIT);
    ReachStep(w, INIT, INIT, b, Begin(t.num));
    ReachStep(w, INIT, Put(INIT, b, p), c, Begin(t.num));
    PoiseRun(w, INIT, Put(Put(INIT, b, p), c, p), b, t);
  }

  /** The state after backend `b` has committed. */
  function Committed(s: State, b: nat): State {
    Put(s, b, At(s, b).(pc := Idle, txn := multiset{})).(rows := s.rows + At(s, b).txn)
  }

  /** Claims, moves and commits row `t`. */
  function Migrated(w: Setting, s: State, b: nat, t: Target): State {
    Committed(Finished(w, Claim(s, b, t), b, t), b)
  }

  lemma MigrateRun(w: Setting, s0: State, s: State, b: nat, t: Target)
    requires Reach(w, s0, s) && Free(w, s, b, t) && At(s, b).mine == [] && At(s, b).others == []
    ensures Reach(w, s0, Migrated(w, s, b, t))
  {
    ClaimRun(w, s0, s, b, t);
    FinishRun(w, s0, Claim(s, b, t), b, t);
    ReachStep(w, s0, Finished(w, Claim(s, b, t), b, t), b, Commit);
  }

  /** Backend `c` migrates row `u` in the standoff; then the store of `b` lands. */
  function Wiped(w: Setting, b: nat, c: nat, t: Target, u: Target): State
    requires b != c
  {
    Landed(Migrated(w, Standoff(b, c, t), c, u), b, t)
  }

  lemma WipedRun(w: Setting, b: nat, c: nat, t: Target, u: Target)
    requires ValidTarget(t) && ValidTarget(u) && b != c && t != u
    requires t in Work(w, b) && u in Work(w, c) && WordOf(t) == WordOf(u)
    ensures Reach(w, INIT, Wiped(w, b, c, t, u))
  {
    SameWord(t, u);
    BitsAreDistinct(t.eid, u.eid);
    BitsAreDistinct(u.eid, t.eid);
    StandoffRun(w, b, c, t);
    MigrateRun(w, INIT, Standoff(b, c, t), c, u);
    LandRun(w, INIT, Migrated(w, Standoff(b, c, t), c, u), b, t);
  }

  lemma WipedState(w: Setting, b: nat, c: nat, t: Target, u: Target)
    requires ValidTarget(t) && ValidTarget(u) && b != c && t != u && WordOf(t) == WordOf(u)
    ensures var s := Wiped(w, b, c, t, u);
      && At(s, c).pc == Idle && At(s, c).txn == multiset{} && s.rows[u] == 1 && LockOf(u) !in s.locks
      && !Locked(s.words, u) && !Moved(s.words, u)
  {
    SameWord(t, u);
    BitsAreDistinct(t.eid, u.eid);
    BitsAreDistinct(u.eid, t.eid);
  }

  /**
   Two rows of one word are guarded by two locks.  Backend `c` claims and moves row `u` while `b`
   has the word loaded; the stale store of `b` wipes both bits of `u`, and `c` migrates it again.
   */
  lemma LostUpdate(w: Setting, b: nat, c: nat, t: Target, u: Target) returns (s: State)
    requires ValidTarget(t) && ValidTarget(u) && b != c && t != u
    requires t in Work(w, b) && u in Work(w, c) && WordOf(t) == WordOf(u)
    ensures Reach(w, INIT, s) && s.rows[u] == 2
  {
    WipedRun(w, b, c, t, u);
    WipedState(w, b, c, t, u);
    var s1 := Wiped(w, b, c, t, u);
    ReachStep(w, INIT, s1, c, Begin(u.num));
    var s2 := Next(w, s1, Event(c, Begin(u.num)));
    MigrateRun(w, INIT, s2, c, u);
    s := Migrated(w, s2, c, u);
  }

  /** Backend `b`, alone, has claimed row `t`. */
  function First(b: nat, t: Target): State {
    Claim(Put(INIT, b, FRESH.(pc := Scanning, num := t.num)), b, t)
  }

  lemma FirstRun(w: Setting, b: nat, t: Target)
    requires ValidTarget(t) && t in Work(w, b)
    ensures Reach(w, INIT, First(b, t))
  {
    ReachRefl(w, INIT);
    ReachStep(w, INIT, INIT, b, Begin(t.num));
    ClaimRun(w, INIT, Put(INIT, b, FRESH.(pc := Scanning, num := t.num)), b, t);
  }

  /** The row is marked as moved, but there is no copy of it and never will be from an open transaction. */
  ghost predicate Lost(s: State, t: Target) { Moved(s.words, t) && s.rows[t] == 0 && !Pending(s, t) }

  /** A transaction that rolls back after its statement has ended leaves the row marked but not copied. */
  lemma LateRollback(w: Setting, b: nat, t: Target) returns (s: State)
    requires ValidTarget(t) && t in Work(w, b) && !w.autocommit
    ensures Reach(w, INIT, s) && Lost(s, t)
  {
    FirstRun(w, b, t);
    FinishRun(w, INIT, First(b, t), b, t);
    var s1 := Finished(w, First(b, t), b, t);
    ReachStep(w, INIT, s1, b, Rollback);
    s := Next(w, s1, Event(b, Rollback));
  }

  /** So does a commit that fails: the bits are set before it. */
  lemma FailedCommit(w: Setting, b: nat, t: Target) returns (s: State)
    requires ValidTarget(t) && t in Work(w, b) && CommitError in w.failures
    ensures Reach(w, INIT, s) && Lost(s, t)
  {
    FirstRun(w, b, t);
    FinishRun(w, INIT, First(b, t), b, t);
    var s1 := Finished(w, First(b, t), b, t);
    ReachStep(w, INIT, s1, b, FailCommit);
    s := Next(w, s1, Event(b, FailCommit));
  }

  /** The statement of `b` has failed and nothing was given back. */
  function BrokenOff(b: nat, t: Target): State { Put(First(b, t), b, Broken(At(First(b, t), b))) }

  lemma BrokenRun(w: Setting, b: nat, t: Target)
    requires ValidTarget(t) && t in Work(w, b) && StatementError in w.failures
    ensures Reach(w, INIT, BrokenOff(b, t))
  {
    FirstRun(w, b, t);
    ReachStep(w, INIT, First(b, t), b, Break);
  }

  /** After such a failure the next statement of the backend, whatever it is, marks the row that was rolled back. */
  lemma StaleMark(w: Setting, b: nat, t: Target) returns (s: State)
    requires ValidTarget(t) && t in Work(w, b) && StatementError in w.failures
    ensures Reach(w, INIT, s) && Lost(s, t)
  {
    BrokenRun(w, b, t);
    var s1 := BrokenOff(b, t);
    ReachStep(w, INIT, s1, b, Other);
    var s2 := Next(w, s1, Event(b, Other));
    MarkRun(w, INIT, s2, b, t);
    s := Put(PutWord(s2, t, WordAt(s2.words, WordOf(t)) + {MoveBit(t)}), b, At(s2, b).(pc := Marking(1)));
  }

  /**
   The promise of exactly-once migration holds for every interleaving if and only if different
   rows visited by different backends never share a bitmap word, every statement commits on its own,
   and nothing fails but writes of pivots.
   */
  lemma ExactlyOnceIff(w: Setting)
    requires ValidSetting(w) && exists b :: Work(w, b) != {}
    ensures (forall s :: Reach(w, INIT, s) ==> ExactlyOnce(s)) <==>
            WordDisjoint(w) && w.autocommit && w.failures <= {PivotWrite}
  {
    if WordDisjoint(w) && w.autocommit && w.failures <= {PivotWrite} {
      forall s | Reach(w, INIT, s) ensures ExactlyOnce(s) {
        var trace :| Run(w, INIT, trace, s);
        SafeRuns(w, trace, s);
      }
    } else {
      var s := Violation(w);
      assert Reach(w, INIT, s) && !ExactlyOnce(s);
    }
  }

  lemma Violation(w: Setting) returns (s: State)
    requires ValidSetting(w) && exists b :: Work(w, b) != {}
    requires !(WordDisjoint(w) && w.autocommit && w.failures <= {PivotWrite})
    ensures Reach(w, INIT, s) && !ExactlyOnce(s)
  {
    var b :| Work(w, b) != {};
    var t :| t in Work(w, b);
    if !w.autocommit {
      s := LateRollback(w, b, t);
    } else if CommitError in w.failures {
      s := FailedCommit(w, b, t);
    } else if StatementError in w.failures {
      s := StaleMark(w, b, t);
    } else {
      forall f | f in w.failures ensures f in {PivotWrite} {
        match f case PivotWrite => case StatementError => case CommitError =>
      }
      var b', c, u, v :| b' != c && u in Work(w, b') && v in Work(w, c) && u != v && WordOf(u) == WordOf(v);
      s := LostUpdate(w, b', c, u, v);
    }
  }

  // Waiting

  /** A backend that met one row, found it claimed and now waits for it. */
  function Waiter(t: Target): Backend { FRESH.(pc := Waiting, num := t.num, seen := {t}, others := [t]) }

  /** A backend with nothing claimed finds row `t` locked and goes on to wait for it. */
  lemma WaitRun(w: Setting, s: State, c: nat, t: Target)
    requires Reach(w, INIT, s) && At(s, c) == FRESH.(pc := Scanning, num := t.num) && t in Work(w, c)
    requires Locked(s.words, t) && !Moved(s.words, t)
    ensures Reach(w, INIT, Put(s, c, Waiter(t)))
  {
    assert FRESH.seen + {t} == {t} && FRESH.others + [t] == [t];
    ReachStep(w, INIT, s, c, Visit(t));
    var q := Waiter(t);
    ReachRead(w, INIT, s, c, q.(pc := Peek(t), others := []));
    ReachStep(w, INIT, Put(s, c, q.(pc := Scanning)), c, Complete);
    PutPut(s, c, q.(pc := Scanning), q.(pc := Marking(0)));
    ReachRead(w, INIT, s, c, q.(pc := Marking(0)));
  }

  /** The failed transaction's row is given back in memory. */
  lemma GiveBackRun(w: Setting, s: State, b: nat, t: Target)
    requires Reach(w, INIT, s) && At(s, b).pc == Undoing(0) && At(s, b).mine == [t]
    ensures Reach(w, INIT, Put(PutWord(s, t, WordAt(s.words, WordOf(t)) - {LockBit(t)}), b, At(s, b).(pc := Undoing(1))))
  {
    var p, word := At(s, b), WordAt(s.words, WordOf(t));
    ReachStep(w, INIT, s, b, Go);
    ReachStep(w, INIT, Put(s, b, p.(pc := UndoStore(0, word))), b, Go);
    PutPut(s, b, p.(pc := UndoStore(0, word)), p.(pc := Undoing(1)));
  }

  /** The state after the transaction of `b` has failed and given its only row back. */
  function GivenBack(s: State, b: nat, t: Target): State {
    Put(PutWord(s, t, WordAt(s.words, WordOf(t)) - {LockBit(t)}), b,
        At(s, b).(pc := Idle, mine := [], others := [], txn := multiset{}))
  }

  lemma AbortRun(w: Setting, s: State, b: nat, p: Backend)
    requires Reach(w, INIT, Put(s, b, p)) && p.pc == Undoing(|p.mine|)
    ensures Reach(w, INIT, Put(s, b, p.(pc := Idle, mine := [], others := [], txn := multiset{})))
  {
    ReachRead(w, INIT, s, b, p);
    var q := p.(pc := Aborting, mine := [], others := []);
    ReachStep(w, INIT, Put(s, b, q), b, Go);
    PutPut(s, b, q, q.(pc := Idle, txn := multiset{}));
  }

  lemma UndoRun(w: Setting, s: State, b: nat, t: Target)
    requires Reach(w, INIT, s) && At(s, b).pc == Scanning && At(s, b).mine == [t] && PivotWrite in w.failures
    ensures Reach(w, INIT, GivenBack(s, b, t))
  {
    var p := At(s, b).(pc := Undoing(0));
    ReachStep(w, INIT, s, b, Fail);
    GiveBackRun(w, Put(s, b, p), b, t);
    var s1 := PutWord(s, t, WordAt(s.words, WordOf(t)) - {LockBit(t)});
    PutPut(s1, b, p, p.(pc := Undoing(1)));
    AbortRun(w, s1, b, p.(pc := Undoing(1)));
  }

  /** A waiter whose only row is not moved has no step. */
  lemma NoStep(w: Setting, s: State, c: nat, t: Target)
    requires At(s, c).pc == Waiting && At(s, c).others == [t] && !Moved(s.words, t)
    ensures forall a :: !Enabled(w, s, Event(c, a))
  {
  }

  /** Backend `b` has claimed row `t` and `c` waits for it. */
  function Awaited(b: nat, c: nat, t: Target): State
    requires b != c
  {
    Put(Landed(Standoff(b, c, t), b, t), c, Waiter(t))
  }

  lemma AwaitedRun(w: Setting, b: nat, c: nat, t: Target)
    requires ValidTarget(t) && b != c && t in Work(w, b) && t in Work(w, c)
    ensures Reach(w, INIT, Awaited(b, c, t))
  {
    BitsAreDistinct(t.eid, t.eid);
    StandoffRun(w, b, c, t);
    LandRun(w, INIT, Standoff(b, c, t), b, t);
    WaitRun(w, Landed(Standoff(b, c, t), b, t), c, t);
  }

  lemma AwaitedState(b: nat, c: nat, t: Target)
    requires ValidTarget(t) && b != c
    ensures var s := Awaited(b, c, t);
      && At(s, b).pc == Scanning && At(s, b).mine == [t] && At(s, c) == Waiter(t) && !Moved(s.words, t)
      && forall d :: d != b && d != c ==> At(s, d).pc == Idle
  {
    BitsAreDistinct(t.eid, t.eid);
  }

  lemma GivenBackState(s: State, b: nat, t: Target)
    ensures At(GivenBack(s, b, t), b).pc == Idle && !Locked(GivenBack(s, b, t).words, t)
    ensures !Moved(s.words, t) ==> !Moved(GivenBack(s, b, t).words, t)
    ensures forall c: nat :: c != b ==> At(GivenBack(s, b, t), c) == At(s, c)
  {
  }

  /**
   A pivot gives its claim back but wakes nobody for it: with everyone else at rest, the waiter's row is
   neither claimed nor moved, and the waiter has no step left.
   */
  lemma StuckWaiter(w: Setting, b: nat, c: nat, t: Target) returns (s: State)
    requires ValidTarget(t) && b != c && t in Work(w, b) && t in Work(w, c) && PivotWrite in w.failures
    ensures Reach(w, INIT, s) && Stuck(w, s, c) && !Locked(s.words, t)
  {
    AwaitedRun(w, b, c, t);
    AwaitedState(b, c, t);
    UndoRun(w, Awaited(b, c, t), b, t);
    s := GivenBack(Awaited(b, c, t), b, t);
    GivenBackState(Awaited(b, c, t), b, t);
    NoStep(w, s, c, t);
  }

  /** After a failure without clean-up a backend waits for its own forgotten claim. */
  lemma StuckAlone(w: Setting, b: nat, t: Target) returns (s: State)
    requires ValidTarget(t) && t in Work(w, b) && StatementError in w.failures
    ensures Reach(w, INIT, s) && Stuck(w, s, b) && Locked(s.words, t)
  {
    BitsAreDistinct(t.eid, t.eid);
    BrokenRun(w, b, t);
    var s1 := BrokenOff(b, t);
    ReachStep(w, INIT, s1, b, Begin(t.num));
    var s2 := Next(w, s1, Event(b, Begin(t.num)));
    assert At(s2, b) == FRESH.(pc := Scanning, num := t.num);
    WaitRun(w, s2, b, t);
    s := Put(s2, b, Waiter(t));
    NoStep(w, s, b, t);
  }

  /** Two backends visit one row. */
  ghost predicate SomeShared(w: Setting) { exists b, t :: t in Work(w, b) && SharedWith(w, b, t) }

  /**
   With word-disjoint work that commits on its own, a backend can be left waiting if and only if a
   statement can fail without clean-up, or a pivot can give back a row that two backends visit.
   */
  lemma StuckIff(w: Setting)
    requires ValidSetting(w) && WordDisjoint(w) && w.autocommit && exists b :: Work(w, b) != {}
    ensures (exists s, b :: Reach(w, INIT, s) && Stuck(w, s, b)) <==>
            StatementError in w.failures || (PivotWrite in w.failures && SomeShared(w))
  {
    if StatementError in w.failures {
      var b :| Work(w, b) != {};
      var t :| t in Work(w, b);
      var s := StuckAlone(w, b, t);
      assert Reach(w, INIT, s) && Stuck(w, s, b);
    } else if PivotWrite in w.failures && SomeShared(w) {
      var b, t :| t in Work(w, b) && SharedWith(w, b, t);
      var c :| c != b && t in Work(w, c);
      var s := StuckWaiter(w, b, c, t);
      assert Reach(w, INIT, s) && Stuck(w, s, c);
    } else {
      forall s, b | Reach(w, INIT, s) ensures !Stuck(w, s, b) {
        var trace :| Run(w, INIT, trace, s);
        NeverStuck(w, trace, s, b);
      }
    }
  }
}
