/**
 Every run of a word-disjoint setting whose statements commit on their own and fail only as pivots or at
 the commit keeps who owns which row; without failing commits, it migrates each row exactly once.
 */
module MigrationSafety {
  import opened MigrationBitmap
  import opened Migration

  /** Different backends work on different words, and every failed statement cleans up. */
  ghost predicate Orderly(w: Setting) {
    ValidSetting(w) && WordDisjoint(w) && w.autocommit && StatementError !in w.failures
  }

  predicate HoldsLock(pc: Pc) {
    pc.CheckMoved? || pc.CheckLock? || pc.Load? || pc.Store? || pc.Release?
  }

  /** Inside MigrateTuple, for the row `pc.t`. */
  predicate Busy(pc: Pc) { pc.Peek? || pc.Acquire? || HoldsLock(pc) }

  predicate UndoPhase(pc: Pc) { pc.Undoing? || pc.UndoStore? }

  predicate JustClaimed(pc: Pc) { pc.Release? && pc.outcome == Claimed }

  /** Between two statements, or behind one. */
  predicate Resting(pc: Pc) { pc.Idle? || pc.Committing? || pc.Aborting? }

  /** How many rows of `mine` already have their migrate bit. */
  function Marked(p: Backend): nat {
    match p.pc
    case Marking(k) => k
    case MarkStore(k, _) => k
    case Waiting => |p.mine|
    case _ => 0
  }

  /** How many rows of `mine` have already been given back. */
  function Undone(pc: Pc): nat {
    match pc
    case Undoing(k) => k
    case UndoStore(k, _) => k
    case _ => 0
  }

  ghost predicate InFrom(mine: seq<Target>, k: nat, t: Target) {
    exists i :: k <= i < |mine| && mine[i] == t
  }

  /** The row is claimed for `p`, which has not committed its copy. */
  ghost predicate Owns(p: Backend, t: Target) {
    (JustClaimed(p.pc) && p.pc.t == t) || InFrom(p.mine, Undone(p.pc), t) || (p.pc.Committing? && t in p.txn)
  }

  ghost predicate AllIn(ts: seq<Target>, work: set<Target>) {
    forall i :: 0 <= i < |ts| ==> ts[i] in work
  }

  ghost predicate NoDup(ts: seq<Target>) {
    forall i, j :: 0 <= i < j < |ts| ==> ts[i] != ts[j]
  }

  ghost predicate Shape(w: Setting, b: nat, p: Backend) {
    && p.copies && !p.pc.Stale?
    && AllIn(p.mine, Work(w, b))
    && AllIn(p.others, Work(w, b))
    && (Busy(p.pc) ==> p.pc.t in Work(w, b))
    && NoDup(p.mine)
    && (p.pc.Marking? || p.pc.Undoing? ==> p.pc.k <= |p.mine|)
    && (p.pc.MarkStore? || p.pc.UndoStore? ==> p.pc.k < |p.mine|)
    && (UndoPhase(p.pc) ==> PivotWrite in w.failures)
    && (if Resting(p.pc) then p.mine == [] && p.others == [] else p.txn == multiset(p.mine))
    && (p.pc.Idle? ==> p.txn == multiset{})
  }

  /** The claimed rows `mine[from..]` are locked, exactly those before `marked` are moved, and none is committed. */
  ghost predicate MineOk(m: Memory, rows: multiset<Target>, mine: seq<Target>, from: nat, marked: nat) {
    forall i :: from <= i < |mine| ==>
      Locked(m, mine[i]) && (Moved(m, mine[i]) <==> i < marked) && rows[mine[i]] == 0
  }

  /** The open transaction has one copy of each of its rows, and they are moved. */
  ghost predicate TxnOk(w: Setting, m: Memory, rows: multiset<Target>, b: nat, txn: multiset<Target>) {
    forall t :: t in txn ==> txn[t] == 1 && t in Work(w, b) && Locked(m, t) && Moved(m, t) && rows[t] == 0
  }

  ghost predicate ClaimsOk(w: Setting, m: Memory, rows: multiset<Target>, b: nat, p: Backend) {
    && MineOk(m, rows, p.mine, Undone(p.pc), Marked(p))
    && (JustClaimed(p.pc) ==>
          p.pc.t !in p.mine && Locked(m, p.pc.t) && !Moved(m, p.pc.t) && rows[p.pc.t] == 0)
    && (p.pc.Release? && p.pc.outcome == AlreadyMoved ==> Moved(m, p.pc.t))
    && (p.pc.Committing? ==> TxnOk(w, m, rows, b, p.txn))
  }

  /** Locks are held where the code says so, and no loaded word is stale. */
  ghost predicate AccessOk(m: Memory, locks: map<nat, nat>, b: nat, p: Backend) {
    && (HoldsLock(p.pc) ==> LockOf(p.pc.t) in locks && locks[LockOf(p.pc.t)] == b)
    && (p.pc.Load? || p.pc.Store? ==> !Locked(m, p.pc.t))
    && (p.pc.Store? ==> p.pc.word == WordAt(m, WordOf(p.pc.t)))
    && (p.pc.MarkStore? || p.pc.UndoStore? ==>
          p.pc.k < |p.mine| && p.pc.word == WordAt(m, WordOf(p.mine[p.pc.k])))
  }

  /** A row the statement has visited is moved, or the backend will still see to it. */
  ghost predicate SeenOk(m: Memory, p: Backend) {
    !UndoPhase(p.pc) && !p.pc.Aborting? && !p.pc.Idle? ==>
      forall t :: t in p.seen ==> Moved(m, t) || t in p.mine || t in p.others || (Busy(p.pc) && t == p.pc.t)
  }

  ghost predicate BackendOk(w: Setting, m: Memory, locks: map<nat, nat>, rows: multiset<Target>, b: nat, p: Backend) {
    Shape(w, b, p) && ClaimsOk(w, m, rows, b, p) && AccessOk(m, locks, b, p) && SeenOk(m, p)
  }

  ghost predicate AllBackendsOk(w: Setting, s: State) {
    forall b :: BackendOk(w, s.words, s.locks, s.rows, b, At(s, b))
  }

  /** A committed row is moved, a moved row is locked, and no row is committed twice. */
  ghost predicate BitsOk(m: Memory, rows: multiset<Target>) {
    forall t :: ValidTarget(t) ==>
      rows[t] <= 1 && (rows[t] == 1 ==> Moved(m, t)) && (Moved(m, t) ==> Locked(m, t))
  }

  ghost predicate OneOwner(s: State) {
    forall b, c, t :: b != c && Owns(At(s, b), t) ==> !Owns(At(s, c), t)
  }

  /** The row is claimed and not done with; without failing commits a moved row is not, until it is committed. */
  ghost predicate Open(w: Setting, m: Memory, rows: multiset<Target>, t: Target) {
    Locked(m, t) && (Moved(m, t) ==> rows[t] == 0 && CommitError !in w.failures)
  }

  ghost predicate HasOwner(w: Setting, s: State) {
    forall t :: ValidTarget(t) && Open(w, s.words, s.rows, t) ==> exists b :: Owns(At(s, b), t)
  }

  ghost predicate Inv(w: Setting, s: State) {
    AllBackendsOk(w, s) && BitsOk(s.words, s.rows) && OneOwner(s) && HasOwner(w, s)
  }

  lemma InitInv(w: Setting)
    ensures Inv(w, INIT)
  {
  }

  // What a step of one backend leaves to the others

  /** No row changes hands. */
  lemma OwnersKept(w: Setting, s: State, s': State, b: nat)
    requires OneOwner(s) && HasOwner(w, s) && s'.words == s.words && s'.rows == s.rows
    requires forall c: nat :: c != b ==> At(s', c) == At(s, c)
    requires forall t :: Owns(At(s', b), t) <==> Owns(At(s, b), t)
    ensures OneOwner(s') && HasOwner(w, s')
  {
    forall x, y, t | x != y && Owns(At(s', x), t) ensures !Owns(At(s', y), t) {
      assert Owns(At(s, x), t);
      assert !Owns(At(s, y), t);
    }
    forall t | ValidTarget(t) && Open(w, s'.words, s'.rows, t) ensures exists c :: Owns(At(s', c), t) {
      var c :| Owns(At(s, c), t);
      assert Owns(At(s', c), t);
    }
  }

  /** What a step of another backend leaves alone. */
  ghost predicate Untouched(s: State, s': State, c: nat, p: Backend) {
    && (HoldsLock(p.pc) ==> LockOf(p.pc.t) in s'.locks && s'.locks[LockOf(p.pc.t)] == c)
    && (forall t :: Owns(p, t) ==>
          && Locked(s'.words, t) == Locked(s.words, t)
          && Moved(s'.words, t) == Moved(s.words, t)
          && s'.rows[t] == s.rows[t])
    && (p.pc.Load? ==> !Locked(s'.words, p.pc.t))
    && (p.pc.Store? ==> WordAt(s'.words, WordOf(p.pc.t)) == WordAt(s.words, WordOf(p.pc.t)))
    && (p.pc.MarkStore? || p.pc.UndoStore? ==>
          p.pc.k < |p.mine| &&
          WordAt(s'.words, WordOf(p.mine[p.pc.k])) == WordAt(s.words, WordOf(p.mine[p.pc.k])))
  }

  lemma FrameBackend(w: Setting, s: State, s': State, c: nat, p: Backend)
    requires BackendOk(w, s.words, s.locks, s.rows, c, p) && Untouched(s, s', c, p)
    requires forall t :: Moved(s.words, t) ==> Moved(s'.words, t)
    ensures BackendOk(w, s'.words, s'.locks, s'.rows, c, p)
  {
    assert MineOk(s'.words, s'.rows, p.mine, Undone(p.pc), Marked(p)) by {
      forall i | Undone(p.pc) <= i < |p.mine| ensures Owns(p, p.mine[i]) {
        assert InFrom(p.mine, Undone(p.pc), p.mine[i]);
      }
    }
    if JustClaimed(p.pc) { assert Owns(p, p.pc.t); }
    if p.pc.Committing? {
      forall t | t in p.txn ensures Locked(s'.words, t) && Moved(s'.words, t) && s'.rows[t] == 0 {
        assert Owns(p, t);
      }
    }
  }

  lemma FrameAll(w: Setting, s: State, s': State, b: nat)
    requires AllBackendsOk(w, s) && BackendOk(w, s'.words, s'.locks, s'.rows, b, At(s', b))
    requires forall t :: Moved(s.words, t) ==> Moved(s'.words, t)
    requires forall c: nat :: c != b ==> At(s', c) == At(s, c) && Untouched(s, s', c, At(s, c))
    ensures AllBackendsOk(w, s')
  {
    forall c: nat ensures BackendOk(w, s'.words, s'.locks, s'.rows, c, At(s', c)) {
      if c != b { FrameBackend(w, s, s', c, At(s, c)); }
    }
  }

  /** A step that leaves bitmap and table alone and changes no owner. */
  lemma QuietStep(w: Setting, s: State, s': State, b: nat)
    requires Inv(w, s) && s'.words == s.words && s'.rows == s.rows
    requires BackendOk(w, s'.words, s'.locks, s'.rows, b, At(s', b))
    requires forall t :: Owns(At(s', b), t) <==> Owns(At(s, b), t)
    requires forall c: nat :: c != b ==> At(s', c) == At(s, c) && Untouched(s, s', c, At(s, c))
    ensures Inv(w, s')
  {
    OwnersKept(w, s, s', b);
    FrameAll(w, s, s', b);
  }

  /** A step that moves one backend only. */
  lemma LocalStep(w: Setting, s: State, b: nat, p: Backend)
    requires Inv(w, s) && BackendOk(w, s.words, s.locks, s.rows, b, p)
    requires forall t :: Owns(p, t) <==> Owns(At(s, b), t)
    ensures Inv(w, Put(s, b, p))
  {
    OwnersKept(w, s, Put(s, b, p), b);
  }

  // Steps of one backend alone

  /** The position behind a step that only moves the backend. */
  ghost predicate Moves(w: Setting, m: Memory, locks: map<nat, nat>, rows: multiset<Target>, b: nat, p: Backend, p': Backend) {
    BackendOk(w, m, locks, rows, b, p') && forall t :: Owns(p', t) <==> Owns(p, t)
  }

  lemma BeginBackend(w: Setting, m: Memory, locks: map<nat, nat>, rows: multiset<Target>, b: nat, p: Backend, num: nat)
    requires BackendOk(w, m, locks, rows, b, p) && p.pc == Idle
    ensures Moves(w, m, locks, rows, b, p, p.(pc := Scanning, num := num, copies := true, mine := [], others := [], seen := {}))
  {
  }

  lemma VisitBackend(w: Setting, m: Memory, locks: map<nat, nat>, rows: multiset<Target>, b: nat, p: Backend, t: Target)
    requires BackendOk(w, m, locks, rows, b, p) && p.pc == Scanning && t in Work(w, b)
    ensures Moves(w, m, locks, rows, b, p, p.(pc := if Moved(m, t) then Scanning else Peek(t), seen := p.seen + {t}))
  {
  }

  lemma CompleteBackend(w: Setting, m: Memory, locks: map<nat, nat>, rows: multiset<Target>, b: nat, p: Backend)
    requires BackendOk(w, m, locks, rows, b, p) && p.pc == Scanning
    ensures Moves(w, m, locks, rows, b, p, p.(pc := Marking(0)))
  {
  }

  lemma RecheckBackend(w: Setting, m: Memory, locks: map<nat, nat>, rows: multiset<Target>, b: nat, p: Backend, j: nat)
    requires BackendOk(w, m, locks, rows, b, p) && p.pc == Waiting && j < |p.others| && Moved(m, p.others[j])
    ensures Moves(w, m, locks, rows, b, p, p.(others := p.others[..j] + p.others[j + 1..]))
  {
  }

  lemma FailBackend(w: Setting, m: Memory, locks: map<nat, nat>, rows: multiset<Target>, b: nat, p: Backend)
    requires BackendOk(w, m, locks, rows, b, p) && p.pc == Scanning && PivotWrite in w.failures
    ensures Moves(w, m, locks, rows, b, p, p.(pc := Undoing(0)))
  {
  }

  lemma AbortBackend(w: Setting, m: Memory, locks: map<nat, nat>, rows: multiset<Target>, b: nat, p: Backend)
    requires BackendOk(w, m, locks, rows, b, p) && p.pc == Aborting
    ensures Moves(w, m, locks, rows, b, p, p.(pc := Idle, txn := multiset{}))
  {
  }

  /** At the end of the statement the rows of the list are those of the transaction. */
  lemma LeaveBackend(w: Setting, m: Memory, locks: map<nat, nat>, rows: multiset<Target>, b: nat, p: Backend)
    requires BackendOk(w, m, locks, rows, b, p) && p.pc == Waiting && p.others == []
    ensures Moves(w, m, locks, rows, b, p, p.(pc := Committing, mine := [], others := []))
  {
    AllInTxn(w, m, rows, b, p.mine);
    LeaveOwns(p, p.(pc := Committing, mine := [], others := []));
  }

  lemma LeaveOwns(p: Backend, p': Backend)
    requires p.pc == Waiting && p'.pc == Committing && p'.mine == [] && p'.txn == p.txn
    requires forall t :: InFrom(p.mine, 0, t) <==> t in p.txn
    ensures forall t :: Owns(p', t) <==> Owns(p, t)
  {
  }

  lemma AllInTxn(w: Setting, m: Memory, rows: multiset<Target>, b: nat, mine: seq<Target>)
    requires AllIn(mine, Work(w, b)) && NoDup(mine) && MineOk(m, rows, mine, 0, |mine|)
    ensures TxnOk(w, m, rows, b, multiset(mine))
    ensures forall t :: InFrom(mine, 0, t) <==> t in multiset(mine)
  {
    forall t ensures InFrom(mine, 0, t) <==> t in multiset(mine) { InTxn(mine, t); }
    forall t | t in multiset(mine) ensures multiset(mine)[t] == 1 { InTxn(mine, t); }
  }

  lemma {:induction false} InTxn(mine: seq<Target>, t: Target)
    ensures InFrom(mine, 0, t) <==> t in multiset(mine)
    ensures NoDup(mine) && t in mine ==> multiset(mine)[t] == 1
  {
    if mine != [] {
      var n := |mine| - 1;
      assert mine == mine[..n] + [mine[n]];
      InTxn(mine[..n], t);
      assert InFrom(mine, 0, t) <==> t in mine;
      assert InFrom(mine[..n], 0, t) <==> t in mine[..n];
    }
  }

  lemma SkipBackend(w: Setting, m: Memory, locks: map<nat, nat>, rows: multiset<Target>, b: nat, p: Backend)
    requires BackendOk(w, m, locks, rows, b, p) && p.pc.Peek?
    ensures Moves(w, m, locks, rows, b, p, p.(pc := Scanning, others := p.others + [p.pc.t]))
  {
  }

  lemma WantBackend(w: Setting, m: Memory, locks: map<nat, nat>, rows: multiset<Target>, b: nat, p: Backend)
    requires BackendOk(w, m, locks, rows, b, p) && p.pc.Peek?
    ensures Moves(w, m, locks, rows, b, p, p.(pc := Acquire(p.pc.t)))
  {
  }

  lemma CheckMovedBackend(w: Setting, m: Memory, locks: map<nat, nat>, rows: multiset<Target>, b: nat, p: Backend)
    requires BackendOk(w, m, locks, rows, b, p) && p.pc.CheckMoved?
    ensures Moves(w, m, locks, rows, b, p,
                  p.(pc := if Moved(m, p.pc.t) then Release(p.pc.t, AlreadyMoved) else CheckLock(p.pc.t)))
  {
  }

  lemma CheckLockBackend(w: Setting, m: Memory, locks: map<nat, nat>, rows: multiset<Target>, b: nat, p: Backend)
    requires BackendOk(w, m, locks, rows, b, p) && p.pc.CheckLock?
    ensures Moves(w, m, locks, rows, b, p, p.(pc := if Locked(m, p.pc.t) then Release(p.pc.t, Contended) else Load(p.pc.t)))
  {
  }

  lemma LoadBackend(w: Setting, m: Memory, locks: map<nat, nat>, rows: multiset<Target>, b: nat, p: Backend)
    requires BackendOk(w, m, locks, rows, b, p) && p.pc.Load?
    ensures Moves(w, m, locks, rows, b, p, p.(pc := Store(p.pc.t, WordAt(m, WordOf(p.pc.t)))))
  {
  }

  lemma MarkedBackend(w: Setting, m: Memory, locks: map<nat, nat>, rows: multiset<Target>, b: nat, p: Backend)
    requires BackendOk(w, m, locks, rows, b, p) && p.pc == Marking(|p.mine|)
    ensures Moves(w, m, locks, rows, b, p, p.(pc := Waiting))
  {
  }

  lemma MarkNextBackend(w: Setting, m: Memory, locks: map<nat, nat>, rows: multiset<Target>, b: nat, p: Backend, k: nat)
    requires BackendOk(w, m, locks, rows, b, p) && p.pc == Marking(k) && k < |p.mine|
    ensures Moves(w, m, locks, rows, b, p, p.(pc := MarkStore(k, WordAt(m, WordOf(p.mine[k])))))
  {
  }

  lemma UndoneBackend(w: Setting, m: Memory, locks: map<nat, nat>, rows: multiset<Target>, b: nat, p: Backend)
    requires BackendOk(w, m, locks, rows, b, p) && p.pc == Undoing(|p.mine|)
    ensures Moves(w, m, locks, rows, b, p, p.(pc := Aborting, mine := [], others := []))
  {
  }

  lemma UndoNextBackend(w: Setting, m: Memory, locks: map<nat, nat>, rows: multiset<Target>, b: nat, p: Backend, k: nat)
    requires BackendOk(w, m, locks, rows, b, p) && p.pc == Undoing(k) && k < |p.mine|
    ensures Moves(w, m, locks, rows, b, p, p.(pc := UndoStore(k, WordAt(m, WordOf(p.mine[k])))))
  {
  }

  lemma ReadBackend(w: Setting, m: Memory, locks: map<nat, nat>, rows: multiset<Target>, b: nat, p: Backend)
    requires BackendOk(w, m, locks, rows, b, p) && Reads(p.pc)
    ensures Moves(w, m, locks, rows, b, p, AfterRead(m, p))
  {
    match p.pc
    case Peek(t) =>
      if Locked(m, t) { SkipBackend(w, m, locks, rows, b, p); } else { WantBackend(w, m, locks, rows, b, p); }
    case CheckMoved(_) => CheckMovedBackend(w, m, locks, rows, b, p);
    case CheckLock(_) => CheckLockBackend(w, m, locks, rows, b, p);
    case Load(_) => LoadBackend(w, m, locks, rows, b, p);
    case Marking(k) =>
      if k == |p.mine| { MarkedBackend(w, m, locks, rows, b, p); } else { MarkNextBackend(w, m, locks, rows, b, p, k); }
    case Undoing(k) =>
      if k == |p.mine| { UndoneBackend(w, m, locks, rows, b, p); } else { UndoNextBackend(w, m, locks, rows, b, p, k); }
  }

  lemma ReadStep(w: Setting, s: State, b: nat)
    requires Inv(w, s) && CanAdvance(s, b) && Reads(At(s, b).pc)
    ensures Inv(w, Advance(s, b))
  {
    ReadBackend(w, s.words, s.locks, s.rows, b, At(s, b));
    LocalStep(w, s, b, AfterRead(s.words, At(s, b)));
  }

  /** The actions other than memory accesses and commits. */
  predicate Local(a: Action) { !a.Go? && !a.Commit? && !a.FailCommit? }

  lemma StatementMoves(w: Setting, s: State, e: Event) returns (p': Backend)
    requires w.autocommit && StatementError !in w.failures && Enabled(w, s, e) && Local(e.action)
    requires BackendOk(w, s.words, s.locks, s.rows, e.b, At(s, e.b))
    ensures Next(w, s, e) == Put(s, e.b, p') && Moves(w, s.words, s.locks, s.rows, e.b, At(s, e.b), p')
  {
    var b, p := e.b, At(s, e.b);
    match e.action {
      case Begin(num) =>
        BeginBackend(w, s.words, s.locks, s.rows, b, p, num);
        p' := p.(pc := Scanning, num := num, copies := true, mine := [], others := [], seen := {});
      case Visit(t) =>
        VisitBackend(w, s.words, s.locks, s.rows, b, p, t);
        p' := p.(pc := if Moved(s.words, t) then Scanning else Peek(t), seen := p.seen + {t});
      case Complete =>
        CompleteBackend(w, s.words, s.locks, s.rows, b, p);
        p' := p.(pc := Marking(0));
      case Recheck(j) =>
        RecheckBackend(w, s.words, s.locks, s.rows, b, p, j);
        p' := p.(others := p.others[..j] + p.others[j + 1..]);
      case Leave =>
        LeaveBackend(w, s.words, s.locks, s.rows, b, p);
        p' := p.(pc := Committing, mine := [], others := []);
      case Fail =>
        FailBackend(w, s.words, s.locks, s.rows, b, p);
        p' := p.(pc := Undoing(0));
    }
  }

  lemma StatementStep(w: Setting, s: State, e: Event)
    requires Orderly(w) && Inv(w, s) && Enabled(w, s, e) && Local(e.action)
    ensures Inv(w, Next(w, s, e))
  {
    assert BackendOk(w, s.words, s.locks, s.rows, e.b, At(s, e.b));
    var p' := StatementMoves(w, s, e);
    LocalStep(w, s, e.b, p');
  }

  lemma AbortStep(w: Setting, s: State, b: nat)
    requires Inv(w, s) && CanAdvance(s, b) && At(s, b).pc.Aborting?
    ensures Inv(w, Advance(s, b))
  {
    AbortBackend(w, s.words, s.locks, s.rows, b, At(s, b));
    LocalStep(w, s, b, At(s, b).(pc := Idle, txn := multiset{}));
  }

  // The partition lock

  ghost predicate Acquires(s: State, s': State, b: nat, t: Target) {
    && At(s, b).pc == Acquire(t) && LockOf(t) !in s.locks && At(s', b) == At(s, b).(pc := CheckMoved(t))
    && s'.words == s.words && s'.rows == s.rows && s'.locks == s.locks[LockOf(t) := b]
    && forall c: nat :: c != b ==> At(s', c) == At(s, c)
  }

  lemma AdvanceAcquires(s: State, b: nat)
    requires CanAdvance(s, b) && At(s, b).pc.Acquire?
    ensures Acquires(s, Advance(s, b), b, At(s, b).pc.t)
  {
  }

  lemma AcquireKeeps(w: Setting, s: State, s': State, b: nat, t: Target)
    requires Inv(w, s) && Acquires(s, s', b, t)
    ensures Inv(w, s')
  {
    assert BackendOk(w, s.words, s.locks, s.rows, b, At(s, b));
    forall c: nat | c != b ensures Untouched(s, s', c, At(s, c)) {
      assert BackendOk(w, s.words, s.locks, s.rows, c, At(s, c));
    }
    QuietStep(w, s, s', b);
  }

  lemma AcquireStep(w: Setting, s: State, b: nat)
    requires Inv(w, s) && CanAdvance(s, b) && At(s, b).pc.Acquire?
    ensures Inv(w, Advance(s, b))
  {
    AdvanceAcquires(s, b);
    AcquireKeeps(w, s, Advance(s, b), b, At(s, b).pc.t);
  }

  /** `mine` grows by a row it did not hold. */
  lemma MineGrows(mine: seq<Target>, t: Target)
    requires NoDup(mine) && t !in mine
    ensures NoDup(mine + [t]) && multiset(mine + [t]) == multiset(mine) + multiset{t}
    ensures forall u :: InFrom(mine + [t], 0, u) <==> u == t || InFrom(mine, 0, u)
  {
    forall u ensures InFrom(mine + [t], 0, u) <==> u == t || InFrom(mine, 0, u) {
      assert InFrom(mine + [t], 0, u) <==> u in mine + [t];
      assert InFrom(mine, 0, u) <==> u in mine;
    }
  }

  lemma MineOkGrows(m: Memory, rows: multiset<Target>, mine: seq<Target>, t: Target)
    requires MineOk(m, rows, mine, 0, 0) && Locked(m, t) && !Moved(m, t) && rows[t] == 0
    ensures MineOk(m, rows, mine + [t], 0, 0)
  {
  }

  /** MigrateTuple returns true: the claim moves from the position into the list, and the copy is written. */
  lemma ClaimBackend(w: Setting, m: Memory, locks: map<nat, nat>, rows: multiset<Target>, b: nat, p: Backend)
    requires BackendOk(w, m, locks, rows, b, p) && JustClaimed(p.pc)
    ensures Moves(w, m, locks - {LockOf(p.pc.t)}, rows, b, p, AfterRelease(p))
  {
    MineGrows(p.mine, p.pc.t);
    MineOkGrows(m, rows, p.mine, p.pc.t);
  }

  lemma PassBackend(w: Setting, m: Memory, locks: map<nat, nat>, rows: multiset<Target>, b: nat, p: Backend)
    requires BackendOk(w, m, locks, rows, b, p) && p.pc.Release? && p.pc.outcome != Claimed
    ensures Moves(w, m, locks - {LockOf(p.pc.t)}, rows, b, p, AfterRelease(p))
  {
    if p.pc.outcome == Contended {
      ContendedBackend(w, m, locks, rows, b, p);
    } else {
      MovedBackend(w, m, locks, rows, b, p);
    }
  }

  lemma ContendedBackend(w: Setting, m: Memory, locks: map<nat, nat>, rows: multiset<Target>, b: nat, p: Backend)
    requires BackendOk(w, m, locks, rows, b, p) && p.pc.Release? && p.pc.outcome == Contended
    ensures Moves(w, m, locks - {LockOf(p.pc.t)}, rows, b, p, p.(pc := Scanning, others := p.others + [p.pc.t]))
  {
  }

  lemma MovedBackend(w: Setting, m: Memory, locks: map<nat, nat>, rows: multiset<Target>, b: nat, p: Backend)
    requires BackendOk(w, m, locks, rows, b, p) && p.pc.Release? && p.pc.outcome == AlreadyMoved
    ensures Moves(w, m, locks - {LockOf(p.pc.t)}, rows, b, p, p.(pc := Scanning))
  {
  }

  /** Releasing the lock of row `t` does not disturb a backend that does not hold it. */
  lemma ReleaseUntouched(w: Setting, s: State, s': State, b: nat, c: nat, t: Target)
    requires BackendOk(w, s.words, s.locks, s.rows, c, At(s, c)) && b != c
    requires LockOf(t) in s.locks && s.locks[LockOf(t)] == b
    requires s'.words == s.words && s'.rows == s.rows && s'.locks == s.locks - {LockOf(t)}
    ensures Untouched(s, s', c, At(s, c))
  {
  }

  ghost predicate Releases(s: State, s': State, b: nat, t: Target) {
    && At(s, b).pc.Release? && At(s, b).pc.t == t && At(s', b) == AfterRelease(At(s, b))
    && s'.words == s.words && s'.rows == s.rows && s'.locks == s.locks - {LockOf(t)}
    && forall c: nat :: c != b ==> At(s', c) == At(s, c)
  }

  lemma ReleaseKeeps(w: Setting, s: State, s': State, b: nat, t: Target)
    requires Inv(w, s) && Releases(s, s', b, t)
    ensures Inv(w, s')
  {
    assert BackendOk(w, s.words, s.locks, s.rows, b, At(s, b));
    if JustClaimed(At(s, b).pc) {
      ClaimBackend(w, s.words, s.locks, s.rows, b, At(s, b));
    } else {
      PassBackend(w, s.words, s.locks, s.rows, b, At(s, b));
    }
    forall c: nat | c != b ensures Untouched(s, s', c, At(s, c)) {
      assert BackendOk(w, s.words, s.locks, s.rows, c, At(s, c));
      ReleaseUntouched(w, s, s', b, c, t);
    }
    QuietStep(w, s, s', b);
  }

  lemma AdvanceReleases(s: State, b: nat)
    requires CanAdvance(s, b) && At(s, b).pc.Release?
    ensures Releases(s, Advance(s, b), b, At(s, b).pc.t)
  {
  }

  lemma ReleaseStep(w: Setting, s: State, b: nat)
    requires Inv(w, s) && CanAdvance(s, b) && At(s, b).pc.Release?
    ensures Inv(w, Advance(s, b))
  {
    AdvanceReleases(s, b);
    ReleaseKeeps(w, s, Advance(s, b), b, At(s, b).pc.t);
  }

  // Writes of the bitmap

  lemma SameWord(t: Target, u: Target)
    requires ValidTarget(t) && ValidTarget(u) && WordOf(t) == WordOf(u)
    ensures t.num == u.num && WordId(t.eid) == WordId(u.eid)
  {
    BitsAreDistinct(t.eid, u.eid);
    BitsAreDistinct(u.eid, t.eid);
  }

  /** `m'` differs from `m` at most in the two bits of row `t`. */
  ghost predicate OnlyBitsOf(m: Memory, m': Memory, t: Target) {
    forall i, bit :: i != WordOf(t) || (bit != LockBit(t) && bit != MoveBit(t)) ==>
      (bit in WordAt(m', i) <==> bit in WordAt(m, i))
  }

  lemma OtherBits(m: Memory, m': Memory, t: Target, u: Target)
    requires ValidTarget(t) && ValidTarget(u) && t != u && OnlyBitsOf(m, m', t)
    ensures Locked(m', u) == Locked(m, u) && Moved(m', u) == Moved(m, u)
  {
    if WordOf(t) == WordOf(u) {
      SameWord(t, u);
      BitsAreDistinct(t.eid, u.eid);
      BitsAreDistinct(u.eid, t.eid);
    }
  }

  lemma OwnedIsLocked(w: Setting, m: Memory, locks: map<nat, nat>, rows: multiset<Target>, c: nat, q: Backend, t: Target)
    requires BackendOk(w, m, locks, rows, c, q) && Owns(q, t)
    ensures Locked(m, t) && t in Work(w, c)
  {
  }

  /** A write of row `t` cannot disturb a backend that neither owns the row nor is about to claim it. */
  lemma WriteUntouched(w: Setting, s: State, s': State, b: nat, c: nat, t: Target)
    requires ValidSetting(w) && WordDisjoint(w) && b != c && t in Work(w, b)
    requires BackendOk(w, s.words, s.locks, s.rows, c, At(s, c))
    requires OnlyBitsOf(s.words, s'.words, t) && s'.rows == s.rows && s'.locks == s.locks
    requires !Owns(At(s, c), t) && (At(s, c).pc.Load? || At(s, c).pc.Store? ==> At(s, c).pc.t != t)
    ensures Untouched(s, s', c, At(s, c))
  {
    var q := At(s, c);
    forall u | Owns(q, u)
      ensures Locked(s'.words, u) == Locked(s.words, u) && Moved(s'.words, u) == Moved(s.words, u)
    {
      OwnedIsLocked(w, s.words, s.locks, s.rows, c, q, u);
      OtherBits(s.words, s'.words, t, u);
    }
    if q.pc.Load? || q.pc.Store? {
      OtherBits(s.words, s'.words, t, q.pc.t);
      assert WordOf(t) != WordOf(q.pc.t);
      assert WordAt(s'.words, WordOf(q.pc.t)) == WordAt(s.words, WordOf(q.pc.t));
    }
    if q.pc.MarkStore? || q.pc.UndoStore? {
      var u := q.mine[q.pc.k];
      assert Owns(q, u) by { assert InFrom(q.mine, Undone(q.pc), u); }
      assert WordOf(t) != WordOf(u);
      assert WordAt(s'.words, WordOf(u)) == WordAt(s.words, WordOf(u));
    }
  }

  lemma OwnersAfterWrite(w: Setting, s: State, s': State, b: nat, t: Target)
    requires OneOwner(s) && HasOwner(w, s) && ValidTarget(t) && OnlyBitsOf(s.words, s'.words, t) && s'.rows == s.rows
    requires forall c: nat :: c != b ==> At(s', c) == At(s, c) && !Owns(At(s, c), t)
    requires forall u :: u != t ==> (Owns(At(s', b), u) <==> Owns(At(s, b), u))
    requires Locked(s'.words, t) ==> Owns(At(s', b), t)
    ensures OneOwner(s') && HasOwner(w, s')
  {
    forall x, y, u | x != y && Owns(At(s', x), u) ensures !Owns(At(s', y), u) {
      if u != t {
        assert Owns(At(s, x), u);
        assert !Owns(At(s, y), u);
      }
    }
    forall u | ValidTarget(u) && Open(w, s'.words, s'.rows, u) ensures exists c :: Owns(At(s', c), u) {
      if u != t {
        OtherBits(s.words, s'.words, t, u);
        var c :| Owns(At(s, c), u);
        assert Owns(At(s', c), u);
      }
    }
  }

  lemma BitsAfterWrite(m: Memory, m': Memory, rows: multiset<Target>, t: Target)
    requires BitsOk(m, rows) && ValidTarget(t) && OnlyBitsOf(m, m', t)
    requires rows[t] == 0 && (Moved(m', t) ==> Locked(m', t))
    ensures BitsOk(m', rows)
  {
    forall u | ValidTarget(u) && u != t
      ensures Locked(m', u) == Locked(m, u) && Moved(m', u) == Moved(m, u)
    {
      OtherBits(m, m', t, u);
    }
  }

  lemma LockWord(m: Memory, t: Target, m': Memory)
    requires m' == m[WordOf(t) := WordAt(m, WordOf(t)) + {LockBit(t)}]
    ensures OnlyBitsOf(m, m', t) && Locked(m', t) && Moved(m', t) == Moved(m, t)
    ensures forall u :: Moved(m, u) ==> Moved(m', u)
  {
    assert LockBit(t) != MoveBit(t);
  }

  lemma StoreBackend(w: Setting, m: Memory, locks: map<nat, nat>, rows: multiset<Target>, b: nat, p: Backend,
                     t: Target, m': Memory)
    requires ValidSetting(w) && BitsOk(m, rows) && BackendOk(w, m, locks, rows, b, p) && p.pc.Store? && p.pc.t == t
    requires m' == m[WordOf(t) := p.pc.word + {LockBit(t)}]
    ensures BackendOk(w, m', locks, rows, b, p.(pc := Release(t, Claimed)))
    ensures OnlyBitsOf(m, m', t) && Locked(m', t) && !Moved(m', t) && rows[t] == 0
    ensures forall u :: Moved(m, u) ==> Moved(m', u)
    ensures forall u :: u != t ==> (Owns(p.(pc := Release(t, Claimed)), u) <==> Owns(p, u))
  {
    assert ValidTarget(t);
    LockWord(m, t, m');
    forall i | 0 <= i < |p.mine|
      ensures p.mine[i] != t && Locked(m', p.mine[i]) == Locked(m, p.mine[i]) && Moved(m', p.mine[i]) == Moved(m, p.mine[i])
    {
      OtherBits(m, m', t, p.mine[i]);
    }
  }

  /** While `b` owns row `t` or is about to claim it, no other backend does either. */
  lemma Excluded(w: Setting, s: State, b: nat, c: nat, t: Target)
    requires Inv(w, s) && b != c && (Owns(At(s, b), t) || (At(s, b).pc.Store? && At(s, b).pc.t == t))
    ensures !Owns(At(s, c), t) && (At(s, c).pc.Load? || At(s, c).pc.Store? ==> At(s, c).pc.t != t)
  {
    assert BackendOk(w, s.words, s.locks, s.rows, b, At(s, b));
    assert BackendOk(w, s.words, s.locks, s.rows, c, At(s, c));
    if Owns(At(s, b), t) { OwnedIsLocked(w, s.words, s.locks, s.rows, b, At(s, b), t); }
    if Owns(At(s, c), t) { OwnedIsLocked(w, s.words, s.locks, s.rows, c, At(s, c), t); }
  }

  /** A write of row `t` by `b`, which owns the row or is about to claim it. */
  lemma WriteStep(w: Setting, s: State, s': State, b: nat, t: Target)
    requires ValidSetting(w) && WordDisjoint(w) && Inv(w, s) && t in Work(w, b)
    requires Owns(At(s, b), t) || (At(s, b).pc.Store? && At(s, b).pc.t == t)
    requires OnlyBitsOf(s.words, s'.words, t) && s'.rows == s.rows && s'.locks == s.locks
    requires forall u :: Moved(s.words, u) ==> Moved(s'.words, u)
    requires s.rows[t] == 0 && (Moved(s'.words, t) ==> Locked(s'.words, t))
    requires forall c: nat :: c != b ==> At(s', c) == At(s, c)
    requires BackendOk(w, s'.words, s'.locks, s'.rows, b, At(s', b))
    requires forall u :: u != t ==> (Owns(At(s', b), u) <==> Owns(At(s, b), u))
    requires Locked(s'.words, t) ==> Owns(At(s', b), t)
    ensures Inv(w, s')
  {
    BitsAfterWrite(s.words, s'.words, s.rows, t);
    forall c: nat | c != b ensures Untouched(s, s', c, At(s, c)) && !Owns(At(s, c), t) {
      Excluded(w, s, b, c, t);
      assert BackendOk(w, s.words, s.locks, s.rows, c, At(s, c));
      WriteUntouched(w, s, s', b, c, t);
    }
    OwnersAfterWrite(w, s, s', b, t);
    FrameAll(w, s, s', b);
  }

  lemma StoreStep(w: Setting, s: State, b: nat)
    requires ValidSetting(w) && WordDisjoint(w) && Inv(w, s) && CanAdvance(s, b) && At(s, b).pc.Store?
    ensures Inv(w, Advance(s, b))
  {
    var p, s' := At(s, b), Advance(s, b);
    assert BackendOk(w, s.words, s.locks, s.rows, b, p);
    StoreBackend(w, s.words, s.locks, s.rows, b, p, p.pc.t, s'.words);
    WriteStep(w, s, s', b, p.pc.t);
  }

  /** Any write by the loops over `mine` leaves the other rows of the list alone. */
  lemma ListAfterWrite(w: Setting, m: Memory, m': Memory, b: nat, mine: seq<Target>, k: nat)
    requires ValidSetting(w) && AllIn(mine, Work(w, b)) && NoDup(mine) && k < |mine| && OnlyBitsOf(m, m', mine[k])
    ensures forall i :: 0 <= i < |mine| && i != k ==>
              Locked(m', mine[i]) == Locked(m, mine[i]) && Moved(m', mine[i]) == Moved(m, mine[i])
  {
    forall i | 0 <= i < |mine| && i != k
      ensures Locked(m', mine[i]) == Locked(m, mine[i]) && Moved(m', mine[i]) == Moved(m, mine[i])
    {
      OtherBits(m, m', mine[k], mine[i]);
    }
  }

  lemma MarkWord(m: Memory, t: Target, m': Memory)
    requires m' == m[WordOf(t) := WordAt(m, WordOf(t)) + {MoveBit(t)}]
    ensures OnlyBitsOf(m, m', t) && Moved(m', t) && Locked(m', t) == Locked(m, t)
    ensures forall u :: Moved(m, u) ==> Moved(m', u)
  {
    assert LockBit(t) != MoveBit(t);
  }

  lemma MarkBackend(w: Setting, m: Memory, locks: map<nat, nat>, rows: multiset<Target>, b: nat, p: Backend,
                    t: Target, m': Memory)
    requires ValidSetting(w) && BackendOk(w, m, locks, rows, b, p) && p.pc.MarkStore? && p.mine[p.pc.k] == t
    requires m' == m[WordOf(t) := p.pc.word + {MoveBit(t)}]
    ensures BackendOk(w, m', locks, rows, b, p.(pc := Marking(p.pc.k + 1)))
    ensures OnlyBitsOf(m, m', t) && Locked(m', t) && Moved(m', t) && rows[t] == 0
    ensures forall u :: Moved(m, u) ==> Moved(m', u)
    ensures Owns(p, t) && forall u :: Owns(p.(pc := Marking(p.pc.k + 1)), u) <==> Owns(p, u)
  {
    MarkWord(m, t, m');
    ListAfterWrite(w, m, m', b, p.mine, p.pc.k);
    assert MineOk(m', rows, p.mine, 0, p.pc.k + 1);
    assert InFrom(p.mine, 0, t);
  }

  ghost predicate Marks(s: State, s': State, b: nat, p: Backend, t: Target) {
    && p == At(s, b) && p.pc.MarkStore? && p.pc.k < |p.mine| && p.mine[p.pc.k] == t
    && At(s', b) == p.(pc := Marking(p.pc.k + 1)) && s'.rows == s.rows && s'.locks == s.locks
    && s'.words == s.words[WordOf(t) := p.pc.word + {MoveBit(t)}]
    && forall c: nat :: c != b ==> At(s', c) == At(s, c)
  }

  lemma AdvanceMarks(s: State, b: nat)
    requires CanAdvance(s, b) && At(s, b).pc.MarkStore?
    ensures Marks(s, Advance(s, b), b, At(s, b), At(s, b).mine[At(s, b).pc.k])
  {
  }

  lemma MarkKeeps(w: Setting, s: State, s': State, b: nat, p: Backend, t: Target)
    requires ValidSetting(w) && WordDisjoint(w) && Inv(w, s) && Marks(s, s', b, p, t)
    ensures Inv(w, s')
  {
    assert BackendOk(w, s.words, s.locks, s.rows, b, p);
    MarkBackend(w, s.words, s.locks, s.rows, b, p, t, s'.words);
    WriteStep(w, s, s', b, t);
  }

  lemma MarkStep(w: Setting, s: State, b: nat)
    requires ValidSetting(w) && WordDisjoint(w) && Inv(w, s) && CanAdvance(s, b) && At(s, b).pc.MarkStore?
    ensures Inv(w, Advance(s, b))
  {
    AdvanceMarks(s, b);
    MarkKeeps(w, s, Advance(s, b), b, At(s, b), At(s, b).mine[At(s, b).pc.k]);
  }

  lemma UnlockWord(m: Memory, t: Target, m': Memory)
    requires m' == m[WordOf(t) := WordAt(m, WordOf(t)) - {LockBit(t)}]
    ensures OnlyBitsOf(m, m', t) && !Locked(m', t) && Moved(m', t) == Moved(m, t)
    ensures forall u :: Moved(m, u) ==> Moved(m', u)
  {
    assert forall u: Target :: LockBit(t) != MoveBit(u);
  }

  lemma UndoBackend(w: Setting, m: Memory, locks: map<nat, nat>, rows: multiset<Target>, b: nat, p: Backend,
                    t: Target, m': Memory)
    requires ValidSetting(w) && BackendOk(w, m, locks, rows, b, p) && p.pc.UndoStore? && p.mine[p.pc.k] == t
    requires m' == m[WordOf(t) := p.pc.word - {LockBit(t)}]
    ensures BackendOk(w, m', locks, rows, b, p.(pc := Undoing(p.pc.k + 1)))
    ensures OnlyBitsOf(m, m', t) && !Locked(m', t) && !Moved(m', t) && rows[t] == 0
    ensures forall u :: Moved(m, u) ==> Moved(m', u)
    ensures Owns(p, t) && forall u :: u != t ==> (Owns(p.(pc := Undoing(p.pc.k + 1)), u) <==> Owns(p, u))
  {
    var k := p.pc.k;
    UnlockWord(m, t, m');
    ListAfterWrite(w, m, m', b, p.mine, k);
    assert MineOk(m', rows, p.mine, k + 1, 0);
    assert InFrom(p.mine, k, t);
    forall u | u != t ensures InFrom(p.mine, k + 1, u) <==> InFrom(p.mine, k, u) {
    }
  }

  lemma UndoKeeps(w: Setting, s: State, s': State, b: nat, p: Backend, t: Target)
    requires ValidSetting(w) && WordDisjoint(w) && Inv(w, s)
    requires p == At(s, b) && p.pc.UndoStore? && p.pc.k < |p.mine| && p.mine[p.pc.k] == t
    requires At(s', b) == p.(pc := Undoing(p.pc.k + 1)) && s'.rows == s.rows && s'.locks == s.locks
    requires s'.words == s.words[WordOf(t) := p.pc.word - {LockBit(t)}]
    requires forall c: nat :: c != b ==> At(s', c) == At(s, c)
    ensures Inv(w, s')
  {
    assert BackendOk(w, s.words, s.locks, s.rows, b, p);
    UndoBackend(w, s.words, s.locks, s.rows, b, p, t, s'.words);
    WriteStep(w, s, s', b, t);
  }

  lemma UndoStep(w: Setting, s: State, b: nat)
    requires ValidSetting(w) && WordDisjoint(w) && Inv(w, s) && CanAdvance(s, b) && At(s, b).pc.UndoStore?
    ensures Inv(w, Advance(s, b))
  {
    UndoKeeps(w, s, Advance(s, b), b, At(s, b), At(s, b).mine[At(s, b).pc.k]);
  }

  // The end of the transaction

  /** The transaction of `b` is over; its copies are in the table or gone. */
  ghost predicate Ends(s: State, s': State, b: nat, kept: bool) {
    && At(s, b).pc.Committing? && At(s', b) == At(s, b).(pc := Idle, txn := multiset{})
    && s'.words == s.words && s'.locks == s.locks && s'.rows == (if kept then s.rows + At(s, b).txn else s.rows)
    && forall c: nat :: c != b ==> At(s', c) == At(s, c)
  }

  lemma EndBits(w: Setting, s: State, s': State, b: nat, kept: bool)
    requires BackendOk(w, s.words, s.locks, s.rows, b, At(s, b)) && BitsOk(s.words, s.rows) && Ends(s, s', b, kept)
    ensures BitsOk(s'.words, s'.rows)
  {
    forall t | ValidTarget(t)
      ensures s'.rows[t] <= 1 && (s'.rows[t] == 1 ==> Moved(s'.words, t)) && (Moved(s'.words, t) ==> Locked(s'.words, t))
    {
      assert At(s, b).txn[t] <= 1;
    }
  }

  lemma EndOwners(w: Setting, s: State, s': State, b: nat, kept: bool)
    requires BackendOk(w, s.words, s.locks, s.rows, b, At(s, b)) && OneOwner(s) && HasOwner(w, s)
    requires Ends(s, s', b, kept) && (kept || CommitError in w.failures)
    ensures OneOwner(s') && HasOwner(w, s')
  {
    forall x, y, t | x != y && Owns(At(s', x), t) ensures !Owns(At(s', y), t) {
      assert x != b && Owns(At(s, x), t);
      assert !Owns(At(s, y), t);
    }
    forall t | ValidTarget(t) && Open(w, s'.words, s'.rows, t) ensures exists c :: Owns(At(s', c), t) {
      assert Open(w, s.words, s.rows, t);
      var c :| Owns(At(s, c), t);
      assert c != b;
      assert Owns(At(s', c), t);
    }
  }

  lemma EndUntouched(w: Setting, s: State, s': State, b: nat, kept: bool, c: nat)
    requires BackendOk(w, s.words, s.locks, s.rows, c, At(s, c)) && OneOwner(s) && Ends(s, s', b, kept) && c != b
    ensures Untouched(s, s', c, At(s, c))
  {
    forall t | Owns(At(s, c), t) ensures s'.rows[t] == s.rows[t] {
      assert !Owns(At(s, b), t);
    }
  }

  lemma EndKeeps(w: Setting, s: State, s': State, b: nat, kept: bool)
    requires Inv(w, s) && Ends(s, s', b, kept) && (kept || CommitError in w.failures)
    ensures Inv(w, s')
  {
    assert BackendOk(w, s.words, s.locks, s.rows, b, At(s, b));
    EndBits(w, s, s', b, kept);
    EndOwners(w, s, s', b, kept);
    forall c: nat | c != b ensures Untouched(s, s', c, At(s, c)) {
      assert BackendOk(w, s.words, s.locks, s.rows, c, At(s, c));
      EndUntouched(w, s, s', b, kept, c);
    }
    FrameAll(w, s, s', b);
  }

  lemma NextEnds(w: Setting, s: State, e: Event)
    requires w.autocommit && Enabled(w, s, e) && (e.action.Commit? || e.action.FailCommit?)
    ensures Ends(s, Next(w, s, e), e.b, e.action.Commit?)
  {
  }

  lemma EndStep(w: Setting, s: State, e: Event)
    requires w.autocommit && Inv(w, s) && Enabled(w, s, e) && (e.action.Commit? || e.action.FailCommit?)
    ensures Inv(w, Next(w, s, e))
  {
    NextEnds(w, s, e);
    EndKeeps(w, s, Next(w, s, e), e.b, e.action.Commit?);
  }

  // All runs

  lemma AdvanceStep(w: Setting, s: State, b: nat)
    requires Orderly(w) && Inv(w, s) && CanAdvance(s, b)
    ensures Inv(w, Advance(s, b))
  {
    if Reads(At(s, b).pc) {
      ReadStep(w, s, b);
    } else {
      match At(s, b).pc {
        case Acquire(_) => AcquireStep(w, s, b);
        case Store(_, _) => StoreStep(w, s, b);
        case Release(_, _) => ReleaseStep(w, s, b);
        case MarkStore(_, _) => MarkStep(w, s, b);
        case UndoStore(_, _) => UndoStep(w, s, b);
        case Aborting => AbortStep(w, s, b);
      }
    }
  }

  lemma StepKeepsInv(w: Setting, s: State, e: Event)
    requires Orderly(w) && Inv(w, s) && Enabled(w, s, e)
    ensures Inv(w, Next(w, s, e))
  {
    match e.action
    case Go => AdvanceStep(w, s, e.b);
    case Commit => EndStep(w, s, e);
    case FailCommit => EndStep(w, s, e);
    case _ => StatementStep(w, s, e);
  }

  lemma {:induction false} RunKeepsInv(w: Setting, s: State, trace: seq<Event>, s': State)
    requires Orderly(w) && Inv(w, s) && Run(w, s, trace, s')
    ensures Inv(w, s')
    decreases trace
  {
    if trace != [] {
      StepKeepsInv(w, s, trace[0]);
      RunKeepsInv(w, Next(w, s, trace[0]), trace[1..], s');
    }
  }

  lemma OwnedAndMoved(w: Setting, s: State, b: nat, t: Target)
    requires BackendOk(w, s.words, s.locks, s.rows, b, At(s, b)) && Owns(At(s, b), t) && Moved(s.words, t)
    ensures t in At(s, b).txn
  {
    InTxn(At(s, b).mine, t);
  }

  /**
   Safety over every interleaving, pivots and their clean-up included: no row is copied twice, and every
   row marked as moved has its copy, committed or in an open transaction.
   */
  lemma SafeRuns(w: Setting, trace: seq<Event>, s: State)
    requires Orderly(w) && CommitError !in w.failures && Run(w, INIT, trace, s)
    ensures ExactlyOnce(s)
  {
    InitInv(w);
    RunKeepsInv(w, INIT, trace, s);
    forall t | ValidTarget(t) && Moved(s.words, t) && s.rows[t] != 1 ensures Pending(s, t) {
      assert Open(w, s.words, s.rows, t);
      var b :| Owns(At(s, b), t);
      OwnedAndMoved(w, s, b, t);
    }
  }

  /**
   When a migration statement is about to end, every row it visited is moved, and there is exactly one
   copy of it, committed or in one open transaction.
   */
  lemma CompletedStatement(w: Setting, trace: seq<Event>, s: State, b: nat, t: Target)
    requires Orderly(w) && CommitError !in w.failures && Run(w, INIT, trace, s)
    requires At(s, b).pc == Waiting && At(s, b).others == [] && t in At(s, b).seen && ValidTarget(t)
    ensures Moved(s.words, t)
    ensures s.rows[t] == 1 || exists c :: At(s, c).txn[t] == 1
    ensures forall c, d :: Owns(At(s, c), t) && Owns(At(s, d), t) ==> c == d
    ensures s.rows[t] == 1 ==> forall c :: !Owns(At(s, c), t)
  {
    InitInv(w);
    RunKeepsInv(w, INIT, trace, s);
    assert BackendOk(w, s.words, s.locks, s.rows, b, At(s, b));
    if s.rows[t] != 1 {
      assert Open(w, s.words, s.rows, t);
      var c :| Owns(At(s, c), t);
      assert BackendOk(w, s.words, s.locks, s.rows, c, At(s, c));
      OneCopy(w, s, c, t);
    } else {
      forall c ensures !Owns(At(s, c), t) { OwnedIsNotCommitted(w, s, c, t); }
    }
  }

  lemma OneCopy(w: Setting, s: State, b: nat, t: Target)
    requires BackendOk(w, s.words, s.locks, s.rows, b, At(s, b)) && Owns(At(s, b), t) && Moved(s.words, t)
    ensures At(s, b).txn[t] == 1
  {
    OwnedAndMoved(w, s, b, t);
    InTxn(At(s, b).mine, t);
  }

  lemma OwnedIsNotCommitted(w: Setting, s: State, b: nat, t: Target)
    requires AllBackendsOk(w, s) && s.rows[t] == 1
    ensures !Owns(At(s, b), t)
  {
    assert BackendOk(w, s.words, s.locks, s.rows, b, At(s, b));
  }

  /** The backend has no statement, waits for the rows of others, or is about to commit. */
  predicate AtRest(pc: Pc) { pc == Idle || pc == Waiting || pc == Committing }

  lemma OwnedAtRest(w: Setting, s: State, b: nat, t: Target)
    requires BackendOk(w, s.words, s.locks, s.rows, b, At(s, b))
    requires Owns(At(s, b), t) && AtRest(At(s, b).pc)
    ensures At(s, b).pc != Idle && Moved(s.words, t)
  {
  }

  /** Once every backend is idle, the claimed rows, the moved rows and the rows with a committed copy are the same. */
  lemma QuiescentRowsAreDone(w: Setting, trace: seq<Event>, s: State, t: Target)
    requires Orderly(w) && CommitError !in w.failures && Run(w, INIT, trace, s)
    requires ValidTarget(t) && forall b :: At(s, b).pc == Idle
    ensures Locked(s.words, t) <==> Moved(s.words, t)
    ensures Moved(s.words, t) <==> s.rows[t] == 1
  {
    InitInv(w);
    RunKeepsInv(w, INIT, trace, s);
    if Open(w, s.words, s.rows, t) {
      var b :| Owns(At(s, b), t);
      assert BackendOk(w, s.words, s.locks, s.rows, b, At(s, b));
      OwnedAtRest(w, s, b, t);
      assert false;
    }
  }

  /** Once every backend is at rest, the claimed rows are the moved rows, even where commits have failed. */
  lemma QuiescentClaimsAreMoved(w: Setting, trace: seq<Event>, s: State, t: Target)
    requires Orderly(w) && Run(w, INIT, trace, s)
    requires ValidTarget(t) && forall b :: AtRest(At(s, b).pc)
    ensures Locked(s.words, t) <==> Moved(s.words, t)
  {
    InitInv(w);
    RunKeepsInv(w, INIT, trace, s);
    if Locked(s.words, t) && !Moved(s.words, t) {
      assert Open(w, s.words, s.rows, t);
      var b :| Owns(At(s, b), t);
      assert BackendOk(w, s.words, s.locks, s.rows, b, At(s, b));
      OwnedAtRest(w, s, b, t);
      assert false;
    }
  }
}
