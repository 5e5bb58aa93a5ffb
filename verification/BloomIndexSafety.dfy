/** What every run of a bloom index keeps. */
module BloomIndexSafety {
  import opened BloomPages
  import opened BloomIndex
  import opened Wrappers

  /** Entry `t` stands on live page `p`. */
  ghost predicate OnPage(pages: seq<Page>, p: int, t: Tuple) {
    0 < p < |pages| && !Unused(pages[p]) && t in pages[p].tuples
  }

  lemma PutOn(pages: seq<Page>, b: nat, t: Tuple, p: int, x: Tuple)
    requires 0 < b <= |pages|
    ensures OnPage(Put(pages, b, t), p, x) <==> OnPage(pages, p, x) || (p == b && x == t)
  {
  }

  lemma VacuumOn(pages: seq<Page>, b: nat, dead: set<nat>, p: int, x: Tuple)
    requires 0 < b < |pages|
    ensures OnPage(pages[b := Vacuumed(pages[b], dead)], p, x) <==> OnPage(pages, p, x) && !(p == b && x.tid in dead)
  {
    if p == b && !Unused(pages[b]) {
      KeepMembers(pages[b].tuples, dead, x);
    }
  }

  // The invariant, part by part

  /** Pages hold no more than fits; deleted pages hold nothing, live pages something, and nothing twice. */
  ghost predicate PagesOk(pages: seq<Page>, size: nat) {
    && TupleSize(size) && 0 < |pages| && pages[0] == New
    && forall p :: 0 < p < |pages| ==> PageOk(pages[p], size) && (pages[p].Page? ==> NoDup(pages[p].tuples))
  }

  /** The entries on live pages are exactly those inserted and not vacuumed. */
  ghost predicate Present(pages: seq<Page>, inserted: set<Tuple>, removed: set<Tuple>) {
    && (forall p, t :: OnPage(pages, p, t) ==> t in inserted && t !in removed)
    && (forall t :: t in inserted && t !in removed ==> Somewhere(pages, t))
  }

  ghost predicate Somewhere(pages: seq<Page>, t: Tuple) { exists p :: OnPage(pages, p, t) }

  /** No entry stands on two pages. */
  ghost predicate Once(pages: seq<Page>) {
    forall p, q, t :: OnPage(pages, p, t) && OnPage(pages, q, t) ==> p == q
  }

  ghost predicate Numbered(inserted: set<Tuple>, removed: set<Tuple>, next: nat) {
    removed <= inserted && forall t :: t in inserted ==> t.serial < next
  }

  /** The list names data pages only. */
  ghost predicate MetaOk(m: Meta, n: nat) {
    && m.nStart <= m.nEnd <= |m.list| && |m.list| <= META_BLOCKS
    && forall k :: 0 <= k < m.nEnd ==> 0 < m.list[k] < n
  }

  /** The insertion that hunts is the one that holds the metapage. */
  ghost predicate PhasesOk(phases: map<nat, Phase>, holder: Option<nat>, m: Meta, n: nat) {
    forall i :: i in phases ==>
      && (phases[i].Hunting? ==> holder == Some(i) && m.nStart <= phases[i].ns <= m.nEnd)
      && (phases[i].Trying? ==> 0 < phases[i].blk < n)
  }

  ghost predicate FsmOk(fsm: set<nat>, n: nat) { forall b :: b in fsm ==> 0 < b < n }

  /** Entries of the dead set that the vacuum has passed, or will not pass, are younger than it. */
  ghost predicate VacuumOk(v: Vacuum, pages: seq<Page>, next: nat) {
    match v
    case NoVacuum => true
    case Cleaning(npages, blk) => 0 < blk && npages <= |pages|
    case Deleting(dead, npages, blk, list, since) =>
      && 0 < blk <= npages <= |pages| && since <= next && |list| <= META_BLOCKS
      && (forall k :: 0 <= k < |list| ==> 0 < list[k] < npages)
      && (forall p, t :: OnPage(pages, p, t) && t.tid in dead && (p < blk || p >= npages) ==> t.serial >= since)
  }

  /** Of the entries older than the scan, those it has passed are found if they match. */
  ghost predicate ScanOk(c: Scan, pages: seq<Page>, inserted: set<Tuple>, next: nat) {
    match c
    case NoScan => true
    case Scanning(query, npages, blk, found, since) =>
      && 0 < blk <= npages <= |pages| && since <= next
      && (forall t :: t in found ==> t in inserted && query <= t.bits)
      && (forall p, t :: OnPage(pages, p, t) && t.serial < since ==> p < npages && (p < blk && query <= t.bits ==> t in found))
  }

  ghost predicate Inv(s: State) {
    && PagesOk(s.pages, s.size) && Present(s.pages, s.inserted, s.removed) && Once(s.pages)
    && Numbered(s.inserted, s.removed, s.next) && MetaOk(s.meta, |s.pages|) && FsmOk(s.fsm, |s.pages|)
    && PhasesOk(s.phases, s.holder, s.meta, |s.pages|)
    && VacuumOk(s.vacuum, s.pages, s.next) && ScanOk(s.scan, s.pages, s.inserted, s.next)
  }

  lemma BuiltPresent(pages: seq<Page>, rows: seq<Tuple>, size: nat, t: Tuple)
    requires BuiltFrom(pages, rows, size)
    ensures Somewhere(pages, t) <==> t in rows
  {
    assert pages[..|pages|] == pages;
    FlattenHas(pages, |pages|, t);
    if t in rows {
      var p :| 0 <= p < |pages| && pages[p].Page? && t in pages[p].tuples;
      assert OnPage(pages, p, t);
    }
  }

  lemma BuiltOnce(pages: seq<Page>, rows: seq<Tuple>, size: nat)
    requires BuiltFrom(pages, rows, size) && NoDup(rows)
    ensures Once(pages)
  {
    assert pages[..|pages|] == pages;
    forall p, q, t | OnPage(pages, p, t) && OnPage(pages, q, t) ensures p == q {
      if p < q { FlattenOnce(pages, |pages|, p, q, t); }
      if q < p { FlattenOnce(pages, |pages|, q, p, t); }
    }
  }

  lemma BuiltPagesOk(pages: seq<Page>, rows: seq<Tuple>, size: nat)
    requires BuiltFrom(pages, rows, size) && NoDup(rows) && TupleSize(size)
    ensures PagesOk(pages, size)
  {
    assert pages[..|pages|] == pages;
    forall p | 0 < p < |pages| && pages[p].Page? ensures NoDup(pages[p].tuples) { FlattenNoDup(pages, |pages|, p); }
  }

  lemma InitInv(s: State, rows: seq<Tuple>)
    requires Init(s, rows)
    ensures Inv(s)
  {
    BuiltPagesOk(s.pages, rows, s.size);
    BuiltOnce(s.pages, rows, s.size);
    forall t ensures Somewhere(s.pages, t) <==> t in rows { BuiltPresent(s.pages, rows, s.size, t); }
  }

  // An insertion

  lemma PutPagesOk(pages: seq<Page>, size: nat, b: nat, t: Tuple)
    requires PagesOk(pages, size) && 0 < b <= |pages| && !OnPage(pages, b, t)
    requires b < |pages| ==> Fits(|Ready(pages[b]).tuples|, size)
    ensures PagesOk(Put(pages, b, t), size)
  {
    OneFits(size);
    FitsBound(if b < |pages| then |Ready(pages[b]).tuples| else 0, size);
  }

  lemma PutPresent(pages: seq<Page>, inserted: set<Tuple>, removed: set<Tuple>, b: nat, t: Tuple)
    requires Present(pages, inserted, removed) && 0 < b <= |pages| && t !in inserted && removed <= inserted
    ensures Present(Put(pages, b, t), inserted + {t}, removed)
  {
    var pages' := Put(pages, b, t);
    forall p, x | OnPage(pages', p, x) ensures x in inserted + {t} && x !in removed { PutOn(pages, b, t, p, x); }
    forall x | x in inserted + {t} && x !in removed ensures Somewhere(pages', x) {
      if x == t {
        PutOn(pages, b, t, b, t);
      } else {
        var p :| OnPage(pages, p, x);
        PutOn(pages, b, t, p, x);
      }
    }
  }

  lemma PutOnce(pages: seq<Page>, b: nat, t: Tuple)
    requires Once(pages) && 0 < b <= |pages| && forall p :: !OnPage(pages, p, t)
    ensures Once(Put(pages, b, t))
  {
    var pages' := Put(pages, b, t);
    forall p, q, x | OnPage(pages', p, x) && OnPage(pages', q, x) ensures p == q {
      PutOn(pages, b, t, p, x);
      PutOn(pages, b, t, q, x);
    }
  }

  lemma PutVacuumOk(v: Vacuum, pages: seq<Page>, next: nat, b: nat, t: Tuple)
    requires VacuumOk(v, pages, next) && 0 < b <= |pages| && t.serial == next
    ensures VacuumOk(v, Put(pages, b, t), next + 1)
  {
    if v.Deleting? {
      var pages' := Put(pages, b, t);
      forall p, x | OnPage(pages', p, x) && x.tid in v.dead && (p < v.blk || p >= v.npages) ensures x.serial >= v.since {
        PutOn(pages, b, t, p, x);
      }
    }
  }

  lemma PutScanOk(c: Scan, pages: seq<Page>, inserted: set<Tuple>, next: nat, b: nat, t: Tuple)
    requires ScanOk(c, pages, inserted, next) && 0 < b <= |pages| && t.serial == next
    ensures ScanOk(c, Put(pages, b, t), inserted + {t}, next + 1)
  {
    if c.Scanning? {
      var pages' := Put(pages, b, t);
      forall p, x | OnPage(pages', p, x) && x.serial < c.since
        ensures p < c.npages && (p < c.blk && c.query <= x.bits ==> x in c.found)
      {
        PutOn(pages, b, t, p, x);
      }
    }
  }

  /** The parts of the invariant that an insertion touches besides the list and the locks. */
  lemma CommitKeeps(s: State, i: nat, b: nat, tid: nat, bits: set<nat>)
    requires Inv(s) && 0 < b <= |s.pages| && (b < |s.pages| ==> PageRoom(s, b))
    ensures var n := Commit(s, i, b, tid, bits);
      && PagesOk(n.pages, n.size) && Present(n.pages, n.inserted, n.removed) && Once(n.pages)
      && Numbered(n.inserted, n.removed, n.next) && VacuumOk(n.vacuum, n.pages, n.next)
      && ScanOk(n.scan, n.pages, n.inserted, n.next) && |s.pages| <= |n.pages| && (b == |s.pages| ==> |n.pages| == b + 1)
  {
    var t := Entry(s, tid, bits);
    assert t !in s.inserted;
    assert forall p :: !OnPage(s.pages, p, t);
    PutPagesOk(s.pages, s.size, b, t);
    PutPresent(s.pages, s.inserted, s.removed, b, t);
    PutOnce(s.pages, b, t);
    PutVacuumOk(s.vacuum, s.pages, s.next, b, t);
    PutScanOk(s.scan, s.pages, s.inserted, s.next, b, t);
  }

  // A page of the vacuum

  lemma VacuumPagesOk(pages: seq<Page>, size: nat, b: nat, dead: set<nat>)
    requires PagesOk(pages, size) && 0 < b < |pages|
    ensures PagesOk(pages[b := Vacuumed(pages[b], dead)], size)
  {
    if !Unused(pages[b]) {
      var ts := pages[b].tuples;
      KeepNoDup(ts, dead);
      Times(|Keep(ts, dead)|, |ts|, size);
    }
  }

  lemma VacuumPresent(pages: seq<Page>, inserted: set<Tuple>, removed: set<Tuple>, b: nat, dead: set<nat>)
    requires Present(pages, inserted, removed) && Once(pages) && 0 < b < |pages|
    ensures Present(pages[b := Vacuumed(pages[b], dead)], inserted, removed + DeadOn(pages[b], dead))
  {
    var pages', gone := pages[b := Vacuumed(pages[b], dead)], DeadOn(pages[b], dead);
    assert forall x :: x in gone <==> OnPage(pages, b, x) && x.tid in dead;
    forall p, x | OnPage(pages', p, x) ensures x in inserted && x !in removed + gone { VacuumOn(pages, b, dead, p, x); }
    forall x | x in inserted && x !in removed + gone ensures Somewhere(pages', x) {
      var p :| OnPage(pages, p, x);
      VacuumOn(pages, b, dead, p, x);
    }
  }

  lemma VacuumOnce(pages: seq<Page>, b: nat, dead: set<nat>)
    requires Once(pages) && 0 < b < |pages|
    ensures Once(pages[b := Vacuumed(pages[b], dead)])
  {
    var pages' := pages[b := Vacuumed(pages[b], dead)];
    forall p, q, x | OnPage(pages', p, x) && OnPage(pages', q, x) ensures p == q {
      VacuumOn(pages, b, dead, p, x);
      VacuumOn(pages, b, dead, q, x);
    }
  }

  lemma VacuumVacuumOk(v: Vacuum, pages: seq<Page>, next: nat, size: nat)
    requires v.Deleting? && VacuumOk(v, pages, next) && v.blk < v.npages
    ensures var p := Vacuumed(pages[v.blk], v.dead);
      VacuumOk(v.(blk := v.blk + 1, list := Noted(v.list, p, v.blk, size)), pages[v.blk := p], next)
  {
    var pages' := pages[v.blk := Vacuumed(pages[v.blk], v.dead)];
    forall p, x | OnPage(pages', p, x) && x.tid in v.dead && (p < v.blk + 1 || p >= v.npages) ensures x.serial >= v.since {
      VacuumOn(pages, v.blk, v.dead, p, x);
    }
  }

  lemma VacuumScanOk(c: Scan, pages: seq<Page>, inserted: set<Tuple>, next: nat, b: nat, dead: set<nat>)
    requires ScanOk(c, pages, inserted, next) && 0 < b < |pages|
    ensures ScanOk(c, pages[b := Vacuumed(pages[b], dead)], inserted, next)
  {
    if c.Scanning? {
      var pages' := pages[b := Vacuumed(pages[b], dead)];
      forall p, x | OnPage(pages', p, x) && x.serial < c.since
        ensures p < c.npages && (p < c.blk && c.query <= x.bits ==> x in c.found)
      {
        VacuumOn(pages, b, dead, p, x);
      }
    }
  }

  lemma DeadWereIn(pages: seq<Page>, inserted: set<Tuple>, removed: set<Tuple>, b: nat, dead: set<nat>)
    requires Present(pages, inserted, removed) && 0 < b < |pages|
    ensures DeadOn(pages[b], dead) <= inserted
  {
    forall x | x in DeadOn(pages[b], dead) ensures x in inserted { assert OnPage(pages, b, x); }
  }

  lemma VacuumPageKeeps(s: State)
    requires Inv(s) && Enabled(s, VacuumPage)
    ensures Inv(Next(s, VacuumPage))
  {
    var v := s.vacuum;
    VacuumPagesOk(s.pages, s.size, v.blk, v.dead);
    VacuumPresent(s.pages, s.inserted, s.removed, v.blk, v.dead);
    DeadWereIn(s.pages, s.inserted, s.removed, v.blk, v.dead);
    VacuumOnce(s.pages, v.blk, v.dead);
    VacuumVacuumOk(v, s.pages, s.next, s.size);
    VacuumScanOk(s.scan, s.pages, s.inserted, s.next, v.blk, v.dead);
  }

  lemma ScanPageKeeps(c: Scan, pages: seq<Page>, inserted: set<Tuple>, removed: set<Tuple>, next: nat)
    requires c.Scanning? && ScanOk(c, pages, inserted, next) && Present(pages, inserted, removed) && c.blk < c.npages
    ensures ScanOk(c.(blk := c.blk + 1, found := c.found + MatchesOn(pages[c.blk], c.query)), pages, inserted, next)
  {
    var now := MatchesOn(pages[c.blk], c.query);
    assert forall x :: x in now <==> OnPage(pages, c.blk, x) && c.query <= x.bits;
  }

  // Steps

  lemma TryPageKeeps(s: State, i: nat)
    requires Inv(s) && Enabled(s, TryPage(i))
    ensures Inv(Next(s, TryPage(i)))
  {
    var p := PhaseOf(s, i);
    if PageRoom(s, p.blk) { CommitKeeps(s, i, p.blk, p.tid, p.bits); }
  }

  lemma HuntPageKeeps(s: State, i: nat)
    requires Inv(s) && Enabled(s, HuntPage(i))
    ensures Inv(Next(s, HuntPage(i)))
  {
    var p := PhaseOf(s, i);
    var b := Listed(s.meta, p.ns);
    if PageRoom(s, b) { CommitKeeps(s, i, b, p.tid, p.bits); }
  }

  lemma RecycleKeeps(s: State, i: nat, b: nat)
    requires Inv(s) && Enabled(s, Recycle(i, b))
    ensures Inv(Next(s, Recycle(i, b)))
  {
    var p := PhaseOf(s, i);
    OneFits(s.size);
    CommitKeeps(s, i, b, p.tid, p.bits);
  }

  lemma ExtendKeeps(s: State, i: nat)
    requires Inv(s) && Enabled(s, Extend(i))
    ensures Inv(Next(s, Extend(i)))
  {
    var p := PhaseOf(s, i);
    CommitKeeps(s, i, |s.pages|, p.tid, p.bits);
  }

  lemma StartsKeep(s: State, a: Action)
    requires Inv(s) && Enabled(s, a) && (a.StartVacuum? || a.StartScan?)
    ensures Inv(Next(s, a))
  {
    assert forall p, t :: OnPage(s.pages, p, t) ==> t.serial < s.next;
  }

  /** Every step keeps the invariant. */
  lemma StepKeepsInv(s: State, a: Action)
    requires Inv(s) && Enabled(s, a)
    ensures Inv(Next(s, a))
  {
    match a
    case TryPage(i) => TryPageKeeps(s, i);
    case HuntPage(i) => HuntPageKeeps(s, i);
    case Recycle(i, b) => RecycleKeeps(s, i, b);
    case Extend(i) => ExtendKeeps(s, i);
    case VacuumPage => VacuumPageKeeps(s);
    case ScanPage => ScanPageKeeps(s.scan, s.pages, s.inserted, s.removed, s.next);
    case StartVacuum(_) => StartsKeep(s, a);
    case StartScan(_) => StartsKeep(s, a);
    case _ =>
  }

  lemma {:induction false} RunKeepsInv(s: State, actions: seq<Action>, t: State)
    requires Inv(s) && Run(s, actions, t)
    ensures Inv(t)
    decreases |actions|
  {
    if actions != [] {
      StepKeepsInv(s, actions[0]);
      RunKeepsInv(Next(s, actions[0]), actions[1..], t);
    }
  }

  // Whole runs

  /**
   In every state reachable from a built index, the index holds what was built or inserted and not vacuumed,
   each entry on one page.
   */
  lemma Conservation(s: State, rows: seq<Tuple>, actions: seq<Action>, t: State, e: Tuple)
    requires Init(s, rows) && Run(s, actions, t)
    ensures Somewhere(t.pages, e) <==> e in t.inserted && e !in t.removed
    ensures forall p, q :: OnPage(t.pages, p, e) && OnPage(t.pages, q, e) ==> p == q
    ensures PagesOk(t.pages, t.size) && MetaOk(t.meta, |t.pages|) && FsmOk(t.fsm, |t.pages|)
  {
    InitInv(s, rows);
    RunKeepsInv(s, actions, t);
  }

  /** What has happened to the entries since `s`: old numbers belong to old entries. */
  ghost predicate Since(s: State, t: State) {
    && s.next <= t.next && s.inserted <= t.inserted && s.removed <= t.removed
    && forall e :: e in t.inserted && e.serial < s.next ==> e in s.inserted
  }

  lemma StepSince(s: State, t: State, a: Action)
    requires Since(s, t) && Enabled(t, a)
    ensures Since(s, Next(t, a))
  {
  }

  lemma {:induction false} RunSince(s: State, t: State, actions: seq<Action>, u: State)
    requires Since(s, t) && Run(t, actions, u)
    ensures Since(s, u)
    decreases |actions|
  {
    if actions != [] {
      StepSince(s, t, actions[0]);
      RunSince(s, Next(t, actions[0]), actions[1..], u);
    }
  }

  /** The vacuum under way at the end of the run is the one under way at its beginning. */
  lemma {:induction false} SameVacuum(s: State, actions: seq<Action>, t: State)
    requires Run(s, actions, t) && s.vacuum.Deleting? && t.vacuum.Deleting?
    requires forall i :: 0 <= i < |actions| ==> !actions[i].StartVacuum?
    ensures t.vacuum.dead == s.vacuum.dead && t.vacuum.since == s.vacuum.since
    decreases |actions|
  {
    if actions != [] {
      var n := Next(s, actions[0]);
      if n.vacuum.Deleting? {
        SameVacuum(n, actions[1..], t);
      } else {
        NoneAgain(n, actions[1..], t);
      }
    }
  }

  lemma {:induction false} NoneAgain(s: State, actions: seq<Action>, t: State)
    requires Run(s, actions, t) && !s.vacuum.Deleting?
    requires forall i :: 0 <= i < |actions| ==> !actions[i].StartVacuum?
    ensures !t.vacuum.Deleting?
    decreases |actions|
  {
    if actions != [] { NoneAgain(Next(s, actions[0]), actions[1..], t); }
  }

  /**
   When a bulk delete has passed its last page, no entry of its dead set is left, provided that none was
   inserted while it ran; whatever insertions, recycling and scans went on beside it.
   */
  lemma BulkDeleteComplete(s: State, dead: set<nat>, actions: seq<Action>, t: State, p: int, e: Tuple)
    requires Inv(s) && Enabled(s, StartVacuum(dead)) && Run(Next(s, StartVacuum(dead)), actions, t)
    requires forall i :: 0 <= i < |actions| ==> !actions[i].StartVacuum?
    requires t.vacuum.Deleting? && t.vacuum.blk >= t.vacuum.npages
    requires forall x :: x in t.inserted && x !in s.inserted ==> x.tid !in dead
    requires OnPage(t.pages, p, e)
    ensures e.tid !in dead
  {
    var s1 := Next(s, StartVacuum(dead));
    StepKeepsInv(s, StartVacuum(dead));
    RunKeepsInv(s1, actions, t);
    SameVacuum(s1, actions, t);
    RunSince(s, s1, actions, t);
    assert e.tid in dead ==> e.serial >= s.next;
  }

  lemma {:induction false} SameScan(s: State, actions: seq<Action>, t: State)
    requires Run(s, actions, t) && s.scan.Scanning? && t.scan.Scanning?
    requires forall i :: 0 <= i < |actions| ==> !actions[i].StartScan?
    ensures t.scan.query == s.scan.query && t.scan.since == s.scan.since
    decreases |actions|
  {
    if actions != [] {
      var n := Next(s, actions[0]);
      if n.scan.Scanning? {
        SameScan(n, actions[1..], t);
      } else {
        NoScanAgain(n, actions[1..], t);
      }
    }
  }

  lemma {:induction false} NoScanAgain(s: State, actions: seq<Action>, t: State)
    requires Run(s, actions, t) && !s.scan.Scanning?
    requires forall i :: 0 <= i < |actions| ==> !actions[i].StartScan?
    ensures !t.scan.Scanning?
    decreases |actions|
  {
    if actions != [] { NoScanAgain(Next(s, actions[0]), actions[1..], t); }
  }

  /**
   A scan that has passed its last page has found every matching entry that was there when it started and
   was not vacuumed meanwhile, and nothing that does not match.
   */
  lemma ScanComplete(s: State, query: set<nat>, actions: seq<Action>, t: State, e: Tuple)
    requires Inv(s) && Enabled(s, StartScan(query)) && Run(Next(s, StartScan(query)), actions, t)
    requires forall i :: 0 <= i < |actions| ==> !actions[i].StartScan?
    requires t.scan.Scanning? && t.scan.blk >= t.scan.npages
    ensures e in s.inserted && e !in t.removed && query <= e.bits ==> e in t.scan.found
    ensures e in t.scan.found ==> e in t.inserted && query <= e.bits
  {
    var s1 := Next(s, StartScan(query));
    StepKeepsInv(s, StartScan(query));
    RunKeepsInv(s1, actions, t);
    SameScan(s1, actions, t);
    RunSince(s, s1, actions, t);
    if e in s.inserted && e !in t.removed {
      assert Somewhere(t.pages, e);
    }
  }
}
