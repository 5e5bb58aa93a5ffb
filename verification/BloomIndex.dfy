/**
 The bloom index as its backends run it (contrib/bloom/blinsert.c:194-366, blvacuum.c:33-217,
 blutils.c:339-393, blscan.c:126-169). Every stretch in which a buffer is locked is one step; the
 metapage lock is held across several page steps while an insertion hunts for room.
 */
module BloomIndex {
  import opened BloomPages
  import opened Wrappers

  /** BloomMetaBlockN. */
  const META_BLOCKS: nat := 2004

  /** Where an insertion is. */
  datatype Phase =
    | Idle
    | Begun(tid: nat, bits: set<nat>)
    | Trying(tid: nat, bits: set<nat>, blk: nat)
    | Waiting(tid: nat, bits: set<nat>, tried: Option<nat>)
    | Hunting(tid: nat, bits: set<nat>, ns: nat)

  /**
   Where the vacuum is, between or in any number of bulk deletes and cleanups; `since` is the number the next
   entry had when the bulk delete started.
   */
  datatype Vacuum =
    | NoVacuum
    | Deleting(dead: set<nat>, npages: nat, blk: nat, list: seq<nat>, since: nat)
    | Cleaning(npages: nat, blk: nat)

  /** Where a scan is, and what it has found. */
  datatype Scan = NoScan | Scanning(query: set<nat>, npages: nat, blk: nat, found: set<Tuple>, since: nat)

  /** The metapage's list of pages with room. */
  datatype Meta = Meta(list: seq<nat>, nStart: nat, nEnd: nat)

  datatype State = State(
    size: nat,
    pages: seq<Page>,
    meta: Meta,
    holder: Option<nat>,
    fsm: set<nat>,
    phases: map<nat, Phase>,
    vacuum: Vacuum,
    scan: Scan,
    inserted: set<Tuple>,
    removed: set<Tuple>,
    next: nat)

  datatype Action =
    | Begin(i: nat, tid: nat, bits: set<nat>)
    | ReadMeta(i: nat)
    | TryPage(i: nat)
    | LockMeta(i: nat)
    | HuntPage(i: nat)
    | Recycle(i: nat, b: nat)
    | Extend(i: nat)
    | DropFsm(i: nat, b: nat)
    | StartVacuum(dead: set<nat>)
    | VacuumPage
    | WriteMeta
    | StartCleanup
    | CleanPage
    | EndCleanup
    | StartScan(query: set<nat>)
    | ScanPage
    | EndScan

  /** An entry of the list; slots that were never written are 0. */
  function Listed(m: Meta, k: nat): nat { if k < |m.list| then m.list[k] else 0 }

  function PhaseOf(s: State, i: nat): Phase { if i in s.phases then s.phases[i] else Idle }

  function SetPhase(s: State, i: nat, p: Phase): State { s.(phases := s.phases[i := p]) }

  // Steps

  predicate Enabled(s: State, a: Action) {
    match a
    case Begin(i, _, _) => PhaseOf(s, i).Idle?
    case ReadMeta(i) => PhaseOf(s, i).Begun? && s.holder.None?
    case TryPage(i) => PhaseOf(s, i).Trying? && PhaseOf(s, i).blk < |s.pages|
    case LockMeta(i) => PhaseOf(s, i).Waiting? && s.holder.None?
    case HuntPage(i) =>
      var p := PhaseOf(s, i);
      p.Hunting? && p.ns < s.meta.nEnd && Listed(s.meta, p.ns) < |s.pages|
    case Recycle(i, b) => NeedsPage(s, i) && b in s.fsm && b < |s.pages| && Unused(s.pages[b])
    case Extend(i) => NeedsPage(s, i)
    // A page in use, or one whose lock another backend holds.
    case DropFsm(i, b) => NeedsPage(s, i) && b in s.fsm
    case StartVacuum(_) => s.vacuum.NoVacuum?
    case VacuumPage => s.vacuum.Deleting? && s.vacuum.blk < s.vacuum.npages && s.vacuum.blk < |s.pages|
    case WriteMeta => s.vacuum.Deleting? && s.vacuum.blk >= s.vacuum.npages && s.holder.None?
    case StartCleanup => s.vacuum.NoVacuum?
    case CleanPage => s.vacuum.Cleaning? && s.vacuum.blk < s.vacuum.npages && s.vacuum.blk < |s.pages|
    case EndCleanup => s.vacuum.Cleaning? && s.vacuum.blk >= s.vacuum.npages
    case StartScan(_) => s.scan.NoScan?
    case ScanPage => s.scan.Scanning? && s.scan.blk < s.scan.npages && s.scan.blk < |s.pages|
    case EndScan => s.scan.Scanning? && s.scan.blk >= s.scan.npages
  }

  /** The insertion has gone through the whole list. */
  predicate NeedsPage(s: State, i: nat) { PhaseOf(s, i).Hunting? && PhaseOf(s, i).ns >= s.meta.nEnd }

  function Entry(s: State, tid: nat, bits: set<nat>): Tuple { Tuple(tid, bits, s.next) }

  /** The pages with an entry added to page `b`, or to a new page behind the last one. */
  function Put(pages: seq<Page>, b: nat, t: Tuple): seq<Page>
    requires b <= |pages|
  {
    if b == |pages| then pages + [Page([t], false)] else pages[b := Page(Ready(pages[b]).tuples + [t], false)]
  }

  /** An insertion that has found room. */
  function Commit(s: State, i: nat, b: nat, tid: nat, bits: set<nat>): State
    requires b <= |s.pages|
  {
    var t := Entry(s, tid, bits);
    SetPhase(s.(pages := Put(s.pages, b, t), inserted := s.inserted + {t}, next := s.next + 1), i, Idle)
  }

  function PageRoom(s: State, b: nat): bool
    requires b < |s.pages|
  {
    Fits(|Ready(s.pages[b]).tuples|, s.size)
  }

  /** Reset to list just one new page. */
  function OnlyPage(m: Meta, b: nat): Meta { Meta([b] + if m.list == [] then [] else m.list[1..], 0, 1) }

  function DeadOn(p: Page, dead: set<nat>): set<Tuple> {
    if Unused(p) then {} else set t | t in p.tuples && t.tid in dead
  }

  function MatchesOn(p: Page, query: set<nat>): set<Tuple> {
    if Unused(p) then {} else set t | t in p.tuples && query <= t.bits
  }

  /** The list with page `b` noted if it has room and is not empty. */
  function Noted(list: seq<nat>, p: Page, b: nat, size: nat): seq<nat> {
    if !Unused(p) && p.tuples != [] && Fits(|p.tuples|, size) && |list| < META_BLOCKS then list + [b] else list
  }

  function Next(s: State, a: Action): State
    requires Enabled(s, a)
  {
    match a
    case Begin(i, tid, bits) => SetPhase(s, i, Begun(tid, bits))
    case ReadMeta(i) =>
      var p, m := PhaseOf(s, i), s.meta;
      if m.nEnd > m.nStart then SetPhase(s, i, Trying(p.tid, p.bits, Listed(m, m.nStart)))
      else SetPhase(s, i, Waiting(p.tid, p.bits, None))
    case TryPage(i) =>
      var p := PhaseOf(s, i);
      if PageRoom(s, p.blk) then Commit(s, i, p.blk, p.tid, p.bits)
      else SetPhase(s, i, Waiting(p.tid, p.bits, Some(p.blk)))
    case LockMeta(i) =>
      var p, m := PhaseOf(s, i), s.meta;
      var skip := m.nStart < m.nEnd && p.tried == Some(Listed(m, m.nStart));
      SetPhase(s.(holder := Some(i)), i, Hunting(p.tid, p.bits, if skip then m.nStart + 1 else m.nStart))
    case HuntPage(i) =>
      var p := PhaseOf(s, i);
      var b := Listed(s.meta, p.ns);
      if PageRoom(s, b) then Commit(s, i, b, p.tid, p.bits).(meta := s.meta.(nStart := p.ns), holder := None)
      else SetPhase(s, i, Hunting(p.tid, p.bits, p.ns + 1))
    case Recycle(i, b) =>
      var p := PhaseOf(s, i);
      Commit(s, i, b, p.tid, p.bits).(meta := OnlyPage(s.meta, b), holder := None, fsm := s.fsm - {b})
    case Extend(i) =>
      var p := PhaseOf(s, i);
      Commit(s, i, |s.pages|, p.tid, p.bits).(meta := OnlyPage(s.meta, |s.pages|), holder := None)
    case DropFsm(_, b) => s.(fsm := s.fsm - {b})
    case StartVacuum(dead) => s.(vacuum := Deleting(dead, |s.pages|, 1, [], s.next))
    case VacuumPage =>
      var v := s.vacuum;
      var p := Vacuumed(s.pages[v.blk], v.dead);
      s.(pages := s.pages[v.blk := p],
         removed := s.removed + DeadOn(s.pages[v.blk], v.dead),
         vacuum := v.(blk := v.blk + 1, list := Noted(v.list, p, v.blk, s.size)))
    case WriteMeta =>
      var v := s.vacuum;
      var rest := if |v.list| <= |s.meta.list| then s.meta.list[|v.list|..] else [];
      s.(meta := Meta(v.list + rest, 0, |v.list|), vacuum := NoVacuum)
    case StartCleanup => s.(vacuum := Cleaning(|s.pages|, 1))
    case CleanPage =>
      var v := s.vacuum;
      s.(vacuum := v.(blk := v.blk + 1), fsm := if Unused(s.pages[v.blk]) then s.fsm + {v.blk} else s.fsm)
    case EndCleanup => s.(vacuum := NoVacuum)
    case StartScan(query) => s.(scan := Scanning(query, |s.pages|, 1, {}, s.next))
    case ScanPage =>
      var c := s.scan;
      s.(scan := c.(blk := c.blk + 1, found := c.found + MatchesOn(s.pages[c.blk], c.query)))
    case EndScan => s.(scan := NoScan)
  }

  /** An index as the build over `rows` leaves it; the metapage lists no page. */
  ghost predicate Init(s: State, rows: seq<Tuple>) {
    && TupleSize(s.size) && BuiltFrom(s.pages, rows, s.size) && NoDup(rows)
    && s.meta == Meta([], 0, 0) && s.holder.None? && s.fsm == {}
    && s.phases == map[] && s.vacuum.NoVacuum? && s.scan.NoScan?
    && s.inserted == (set t | t in rows) && s.removed == {} && forall t :: t in rows ==> t.serial < s.next
  }

  ghost predicate Run(s: State, actions: seq<Action>, t: State)
    decreases |actions|
  {
    if actions == [] then s == t
    else Enabled(s, actions[0]) && Run(Next(s, actions[0]), actions[1..], t)
  }
}
