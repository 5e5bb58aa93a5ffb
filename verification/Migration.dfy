/**
 The lazy-migration protocol of BullFrog as a state machine over the memory accesses of any
 number of backends: MigrateTuple (src/backend/executor/execScan.c), the bookkeeping when a
 statement ends and the commit behind it (src/backend/tcop/postgres.c), and the failures with and
 without a clean-up (src/backend/storage/lmgr/predicate.c).

 One step is one access to shared memory.  In particular `word |= bit` is a load step and a
 store step, because the partition lock guards a row, not the word 32 rows share.
 */
module Migration {
  import opened MigrationBitmap

  /** An old row, in the bitmap (0 or 1) of the migration statement that visits it. */
  datatype Target = Target(num: nat, eid: nat)

  predicate ValidTarget(t: Target) { t.num < 2 && t.eid < NUM_TUPLES }

  function WordOf(t: Target): nat { t.num * BITMAP_SIZE + WordId(t.eid) }

  /** The partition lock, as an index into the migrate-bitmap part of the lock array. */
  function LockOf(t: Target): nat { t.num * NUM_BITMAP_LOCKS + t.eid % NUM_BITMAP_LOCKS }

  function LockBit(t: Target): nat { LockBitId(t.eid) }

  function MoveBit(t: Target): nat { MigrateBitId(t.eid) }

  datatype Outcome = Claimed | Contended | AlreadyMoved

  /** Where a backend is. */
  datatype Pc =
    | Idle                                // no migration statement
    | Scanning                            // between two tuples of the scan
    | Peek(t: Target)                     // saw the migrate bit clear, lock bit not read yet
    | Acquire(t: Target)                  // saw both bits clear, waits for the partition lock
    | CheckMoved(t: Target)               // holds the lock, about to re-read the migrate bit
    | CheckLock(t: Target)                // holds the lock, about to re-read the lock bit
    | Load(t: Target)                     // holds the lock, about to load the word
    | Store(t: Target, word: Word)        // holds the lock, about to store the word with the bit
    | Release(t: Target, outcome: Outcome)
    | Marking(k: nat)                     // scan is over: sets the migrate bits of its rows
    | MarkStore(k: nat, word: Word)
    | Waiting                             // spins on the rows others had claimed
    | Committing                          // statement is over, its own transaction is still open
    | Undoing(k: nat)                     // transaction is failing: gives its rows back
    | UndoStore(k: nat, word: Word)
    | Aborting                            // rows are given back, their copies not yet rolled back
    | Stale                               // failed without clean-up: flag and lists are still there

  /**
   `mine` and `others` are InProgLocalList0 and InProgLocalList1; `copies` says that the statement
   writes a copy of every row it is given, `txn` holds the rows whose copies the open transaction has
   written and `seen` the old rows the statement has visited.
   */
  datatype Backend = Backend(pc: Pc, num: nat, copies: bool, mine: seq<Target>, others: seq<Target>,
                             txn: multiset<Target>, seen: set<Target>)

  const FRESH: Backend := Backend(Idle, 0, true, [], [], multiset{}, {})

  /** The bitmap words that were ever written; all others are zero. */
  type Memory = map<nat, Word>

  /** `rows` counts, per old row, the migrated copies that are committed. */
  datatype State = State(words: Memory, locks: map<nat, nat>,
                         backends: map<nat, Backend>, rows: multiset<Target>)

  /** Shared memory is zeroed when it is created. */
  const INIT: State := State(map[], map[], map[], multiset{})

  datatype Action =
    | Begin(num: nat)     // bind of a migration statement
    | Visit(t: Target)    // the scan yields a tuple
    | Go                  // next memory access, where only one is possible
    | Complete            // the scan is over
    | Recheck(j: nat)     // re-read the migrate bit of one row others had claimed
    | Leave               // no such row is left
    | Other               // a statement that is not a migration runs while the flag is still set
    | Fail                // canceled as a pivot during a write
    | Break               // any other error of the statement
    | Commit
    | FailCommit          // the commit itself raises an error
    | Rollback

  datatype Event = Event(b: nat, action: Action)

  /** The errors that can be raised: only the first kind gives claims back. */
  datatype Failure = PivotWrite | StatementError | CommitError

  /** The rows each backend ever visits, whether each statement commits on its own, and what can fail. */
  datatype Setting = Setting(work: map<nat, set<Target>>, autocommit: bool, failures: set<Failure>)

  predicate ValidSetting(w: Setting) {
    forall b, t :: b in w.work && t in w.work[b] ==> ValidTarget(t)
  }

  function Work(w: Setting, b: nat): set<Target> {
    if b in w.work then w.work[b] else {}
  }

  function WordAt(m: Memory, i: nat): Word {
    if i in m then m[i] else {}
  }

  function At(s: State, b: nat): Backend {
    if b in s.backends then s.backends[b] else FRESH
  }

  predicate Locked(m: Memory, t: Target) { LockBit(t) in WordAt(m, WordOf(t)) }

  predicate Moved(m: Memory, t: Target) { MoveBit(t) in WordAt(m, WordOf(t)) }

  predicate CanAdvance(s: State, b: nat) {
    var p := At(s, b);
    match p.pc
    case Acquire(t) => LockOf(t) !in s.locks
    case Marking(k) => k <= |p.mine|
    case MarkStore(k, _) => k < |p.mine|
    case Undoing(k) => k <= |p.mine|
    case UndoStore(k, _) => k < |p.mine|
    case Idle => false
    case Scanning => false
    case Waiting => false
    case Committing => false
    case Stale => false
    case _ => true
  }

  /** Where a commit comes: right behind the statement, or some time later. */
  function AtCommit(w: Setting): Pc { if w.autocommit then Committing else Idle }

  predicate Enabled(w: Setting, s: State, e: Event) {
    var p := At(s, e.b);
    match e.action
    case Begin(num) => (p.pc == Idle || p.pc == Stale) && num < 2
    case Visit(t) => p.pc == Scanning && t in Work(w, e.b) && t.num == p.num
    case Go => CanAdvance(s, e.b)
    case Complete => p.pc == Scanning
    case Recheck(j) => p.pc == Waiting && j < |p.others| && Moved(s.words, p.others[j])
    case Leave => p.pc == Waiting && p.others == []
    case Other => p.pc == Stale
    // Only a write is canceled as a pivot, and a migration writes what it has claimed.
    case Fail => p.pc == Scanning && PivotWrite in w.failures && (p.mine != [] || !p.copies)
    case Break => p.pc == Scanning && StatementError in w.failures
    case Commit => p.pc == AtCommit(w)
    case FailCommit => p.pc == AtCommit(w) && CommitError in w.failures
    case Rollback => !w.autocommit && p.pc == Idle
  }

  function Put(s: State, b: nat, p: Backend): State {
    s.(backends := s.backends[b := p])
  }

  function PutWord(s: State, t: Target, word: Word): State {
    s.(words := s.words[WordOf(t) := word])
  }

  /** The positions where the next access only reads the bitmap. */
  predicate Reads(pc: Pc) {
    pc.Peek? || pc.CheckMoved? || pc.CheckLock? || pc.Load? || pc.Marking? || pc.Undoing?
  }

  function AfterRead(m: Memory, p: Backend): Backend
    requires Reads(p.pc) && (p.pc.Marking? || p.pc.Undoing? ==> p.pc.k <= |p.mine|)
  {
    match p.pc
    case Peek(t) => if Locked(m, t) then p.(pc := Scanning, others := p.others + [t]) else p.(pc := Acquire(t))
    case CheckMoved(t) => p.(pc := if Moved(m, t) then Release(t, AlreadyMoved) else CheckLock(t))
    case CheckLock(t) => p.(pc := if Locked(m, t) then Release(t, Contended) else Load(t))
    case Load(t) => p.(pc := Store(t, WordAt(m, WordOf(t))))
    case Marking(k) =>
      if k == |p.mine| then p.(pc := Waiting)
      else p.(pc := MarkStore(k, WordAt(m, WordOf(p.mine[k]))))
    case Undoing(k) =>
      if k == |p.mine| then p.(pc := Aborting, mine := [], others := [])
      else p.(pc := UndoStore(k, WordAt(m, WordOf(p.mine[k]))))
  }

  /** MigrateTuple returns: the row is claimed, left to another backend, or skipped. */
  function AfterRelease(p: Backend): Backend
    requires p.pc.Release?
  {
    match p.pc.outcome
    case Claimed =>
      p.(pc := Scanning, mine := p.mine + [p.pc.t], txn := if p.copies then p.txn + multiset{p.pc.t} else p.txn)
    case Contended => p.(pc := Scanning, others := p.others + [p.pc.t])
    case AlreadyMoved => p.(pc := Scanning)
  }

  /** The access a backend makes when its position leaves no choice. */
  function Advance(s: State, b: nat): State
    requires CanAdvance(s, b)
  {
    var p := At(s, b);
    if Reads(p.pc) then Put(s, b, AfterRead(s.words, p)) else
    match p.pc
    case Acquire(t) => Put(s, b, p.(pc := CheckMoved(t))).(locks := s.locks[LockOf(t) := b])
    case Store(t, word) => PutWord(Put(s, b, p.(pc := Release(t, Claimed))), t, word + {LockBit(t)})
    case Release(t, outcome) =>
      Put(s, b, AfterRelease(p)).(locks := s.locks - {LockOf(t)})
    case MarkStore(k, word) =>
      PutWord(Put(s, b, p.(pc := Marking(k + 1))), p.mine[k], word + {MoveBit(p.mine[k])})
    case UndoStore(k, word) =>
      PutWord(Put(s, b, p.(pc := Undoing(k + 1))), p.mine[k], word - {LockBit(p.mine[k])})
    case Aborting => Put(s, b, p.(pc := Idle, txn := multiset{}))
  }

  /** The transaction is rolled back, and nothing else is done. */
  function Broken(p: Backend): Backend { p.(pc := Stale, txn := multiset{}) }

  function Next(w: Setting, s: State, e: Event): State
    requires Enabled(w, s, e)
  {
    var b, p := e.b, At(s, e.b);
    match e.action
    case Begin(num) => Put(s, b, p.(pc := Scanning, num := num, copies := true, mine := [], others := [], seen := {}))
    case Visit(t) =>
      Put(s, b, p.(pc := if Moved(s.words, t) then Scanning else Peek(t), seen := p.seen + {t}))
    case Go => Advance(s, b)
    case Complete => Put(s, b, p.(pc := Marking(0)))
    case Recheck(j) => Put(s, b, p.(others := p.others[..j] + p.others[j + 1..]))
    case Leave => Put(s, b, p.(pc := AtCommit(w), mine := [], others := []))
    case Other => Put(s, b, p.(pc := Scanning, copies := false, seen := {}))
    case Fail => Put(s, b, if p.mine == [] then Broken(p) else p.(pc := Undoing(0)))
    case Break => Put(s, b, Broken(p))
    case Commit => Put(s, b, p.(pc := Idle, txn := multiset{})).(rows := s.rows + p.txn)
    case FailCommit => Put(s, b, p.(pc := Idle, txn := multiset{}))
    case Rollback => Put(s, b, p.(txn := multiset{}))
  }

  /** `trace` is a possible interleaving from `s` to `s'`. */
  predicate Run(w: Setting, s: State, trace: seq<Event>, s': State)
    decreases trace
  {
    if trace == [] then s == s'
    else Enabled(w, s, trace[0]) && Run(w, Next(w, s, trace[0]), trace[1..], s')
  }

  /** `s` can be reached from `s0`. */
  ghost predicate Reach(w: Setting, s0: State, s: State) {
    exists trace :: Run(w, s0, trace, s)
  }

  /** Some open transaction has written a copy of the row. */
  ghost predicate Pending(s: State, t: Target) { exists b :: t in At(s, b).txn }

  /** No old row is ever copied twice, and a row marked as moved has its copy once no transaction holds it. */
  ghost predicate ExactlyOnce(s: State) {
    forall t :: ValidTarget(t) ==> s.rows[t] <= 1 && (Moved(s.words, t) && !Pending(s, t) ==> s.rows[t] == 1)
  }

  /** Different rows visited by different backends never share a word of the bitmap. */
  ghost predicate WordDisjoint(w: Setting) {
    forall b, c, t, u :: b != c && t in Work(w, b) && u in Work(w, c) && t != u ==> WordOf(t) != WordOf(u)
  }
}
