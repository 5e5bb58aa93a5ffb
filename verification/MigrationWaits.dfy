/** When a backend that waits for the rows of others is never left waiting. */
module MigrationWaits {
  import opened MigrationBitmap
  import opened Migration
  import opened MigrationSafety

  /** Some other backend visits the row, too. */
  ghost predicate SharedWith(w: Setting, b: nat, t: Target) { exists c :: c != b && t in Work(w, c) }

  /** On the waiting list, or about to get there. */
  ghost predicate WaitsFor(p: Backend, t: Target) {
    t in p.others || (p.pc.Release? && p.pc.outcome == Contended && p.pc.t == t)
  }

  ghost predicate WaitOk(w: Setting, m: Memory, b: nat, p: Backend) {
    forall t :: WaitsFor(p, t) ==>
      (PivotWrite !in w.failures ==> Locked(m, t)) && (t in p.mine || Moved(m, t) || SharedWith(w, b, t))
  }

  ghost predicate WaitsOk(w: Setting, s: State) { forall b :: WaitOk(w, s.words, b, At(s, b)) }

  /** No migrate bit is ever cleared, and no lock bit where no pivot is canceled. */
  ghost predicate Grows(w: Setting, m: Memory, m': Memory) {
    && (forall t :: Moved(m, t) ==> Moved(m', t))
    && (PivotWrite !in w.failures ==> forall t :: Locked(m, t) ==> Locked(m', t))
  }

  lemma AddBit(w: Setting, m: Memory, i: nat, bit: nat)
    ensures Grows(w, m, m[i := WordAt(m, i) + {bit}])
  {
  }

  lemma DropLockBit(w: Setting, m: Memory, t: Target)
    requires PivotWrite in w.failures
    ensures Grows(w, m, m[WordOf(t) := WordAt(m, WordOf(t)) - {LockBit(t)}])
  {
    assert forall u: Target :: LockBit(t) != MoveBit(u);
  }

  lemma AdvanceGrows(w: Setting, s: State, b: nat)
    requires BackendOk(w, s.words, s.locks, s.rows, b, At(s, b)) && CanAdvance(s, b)
    ensures Grows(w, s.words, Advance(s, b).words)
  {
    match At(s, b).pc
    case Store(t, _) => AddBit(w, s.words, WordOf(t), LockBit(t));
    case MarkStore(k, _) => AddBit(w, s.words, WordOf(At(s, b).mine[k]), MoveBit(At(s, b).mine[k]));
    case UndoStore(k, _) => DropLockBit(w, s.words, At(s, b).mine[k]);
    case _ =>
  }

  /** Whoever has locked a row that `b` has just found locked and has not claimed itself, visits it, too. */
  lemma LockedBy(w: Setting, s: State, b: nat, t: Target)
    requires ValidSetting(w) && Inv(w, s) && t in Work(w, b) && Locked(s.words, t)
    requires At(s, b).pc.Peek? || At(s, b).pc.CheckLock?
    ensures t in At(s, b).mine || Moved(s.words, t) || SharedWith(w, b, t)
  {
    if !Moved(s.words, t) {
      assert Open(w, s.words, s.rows, t);
      var c :| Owns(At(s, c), t);
      assert BackendOk(w, s.words, s.locks, s.rows, c, At(s, c));
      OwnedIsLocked(w, s.words, s.locks, s.rows, c, At(s, c), t);
    }
  }

  lemma FrameWait(w: Setting, m: Memory, m': Memory, b: nat, p: Backend, p': Backend)
    requires WaitOk(w, m, b, p) && Grows(w, m, m')
    requires forall t :: WaitsFor(p', t) ==> WaitsFor(p, t)
    requires forall t :: WaitsFor(p', t) && t in p.mine ==> t in p'.mine
    ensures WaitOk(w, m', b, p')
  {
  }

  /** The two places where a row is found locked. */
  predicate Finds(pc: Pc) { pc.Peek? || pc.CheckLock? }

  lemma FindWait(w: Setting, s: State, b: nat, p: Backend)
    requires ValidSetting(w) && Inv(w, s) && p == At(s, b) && WaitOk(w, s.words, b, p) && Finds(p.pc)
    ensures WaitOk(w, s.words, b, AfterRead(s.words, p))
  {
    assert BackendOk(w, s.words, s.locks, s.rows, b, p);
    if Locked(s.words, p.pc.t) { LockedBy(w, s, b, p.pc.t); }
    forall t | WaitsFor(AfterRead(s.words, p), t) ensures (t == p.pc.t && Locked(s.words, t)) || WaitsFor(p, t) {
    }
  }

  lemma NoNewWait(s: State, b: nat)
    requires CanAdvance(s, b) && !Finds(At(s, b).pc)
    ensures var p, p' := At(s, b), At(Advance(s, b), b);
      forall t :: WaitsFor(p', t) ==> WaitsFor(p, t) && (t in p.mine ==> t in p'.mine)
  {
  }

  lemma AdvanceWait(w: Setting, s: State, b: nat)
    requires ValidSetting(w) && Inv(w, s) && WaitOk(w, s.words, b, At(s, b)) && CanAdvance(s, b)
    ensures WaitOk(w, Advance(s, b).words, b, At(Advance(s, b), b))
  {
    if Finds(At(s, b).pc) {
      FindWait(w, s, b, At(s, b));
    } else {
      assert BackendOk(w, s.words, s.locks, s.rows, b, At(s, b));
      AdvanceGrows(w, s, b);
      NoNewWait(s, b);
      FrameWait(w, s.words, Advance(s, b).words, b, At(s, b), At(Advance(s, b), b));
    }
  }

  lemma OtherWait(w: Setting, s: State, e: Event)
    requires Enabled(w, s, e) && !e.action.Go? && WaitOk(w, s.words, e.b, At(s, e.b))
    ensures WaitOk(w, s.words, e.b, At(Next(w, s, e), e.b)) && Next(w, s, e).words == s.words
  {
    FrameWait(w, s.words, s.words, e.b, At(s, e.b), At(Next(w, s, e), e.b));
  }

  lemma StepKeepsWaits(w: Setting, s: State, e: Event)
    requires ValidSetting(w) && Inv(w, s) && WaitsOk(w, s) && Enabled(w, s, e)
    ensures WaitsOk(w, Next(w, s, e))
  {
    var s' := Next(w, s, e);
    assert BackendOk(w, s.words, s.locks, s.rows, e.b, At(s, e.b));
    assert WaitOk(w, s.words, e.b, At(s, e.b));
    if e.action.Go? {
      AdvanceWait(w, s, e.b);
      AdvanceGrows(w, s, e.b);
    } else {
      OtherWait(w, s, e);
    }
    forall c: nat ensures WaitOk(w, s'.words, c, At(s', c)) {
      if c != e.b {
        assert WaitOk(w, s.words, c, At(s, c));
        OnlyMoves(w, s, e, c);
        FrameWait(w, s.words, s'.words, c, At(s, c), At(s', c));
      }
    }
  }

  lemma OnlyMoves(w: Setting, s: State, e: Event, c: nat)
    requires Enabled(w, s, e) && c != e.b
    ensures At(Next(w, s, e), c) == At(s, c)
  {
  }

  lemma {:induction false} RunKeepsWaits(w: Setting, s: State, trace: seq<Event>, s': State)
    requires Orderly(w) && Inv(w, s) && WaitsOk(w, s) && Run(w, s, trace, s')
    ensures WaitsOk(w, s')
    decreases trace
  {
    if trace != [] {
      StepKeepsInv(w, s, trace[0]);
      StepKeepsWaits(w, s, trace[0]);
      RunKeepsWaits(w, Next(w, s, trace[0]), trace[1..], s');
    }
  }

  /** `b` waits and has no step, and all others are at rest; some of them may wait, too. */
  ghost predicate Stuck(w: Setting, s: State, b: nat) {
    && At(s, b).pc == Waiting && (forall a :: !Enabled(w, s, Event(b, a)))
    && forall c :: c != b ==> AtRest(At(s, c).pc)
  }

  lemma StuckFor(w: Setting, s: State, b: nat) returns (t: Target)
    requires Stuck(w, s, b)
    ensures t in At(s, b).others && !Moved(s.words, t)
  {
    assert !Enabled(w, s, Event(b, Leave));
    assert !Enabled(w, s, Event(b, Recheck(0)));
    t := At(s, b).others[0];
  }

  /** Nobody is left waiting, unless a pivot can give back a row that two backends visit. */
  lemma NeverStuck(w: Setting, trace: seq<Event>, s: State, b: nat)
    requires Orderly(w) && Run(w, INIT, trace, s)
    requires PivotWrite !in w.failures || forall c, t :: t in Work(w, c) ==> !SharedWith(w, c, t)
    ensures !Stuck(w, s, b)
  {
    InitInv(w);
    RunKeepsInv(w, INIT, trace, s);
    RunKeepsWaits(w, INIT, trace, s);
    if Stuck(w, s, b) {
      var t := StuckFor(w, s, b);
      assert WaitOk(w, s.words, b, At(s, b)) && WaitsFor(At(s, b), t);
      assert BackendOk(w, s.words, s.locks, s.rows, b, At(s, b));
      QuiescentClaimsAreMoved(w, trace, s, t);
      assert false;
    }
  }
}
