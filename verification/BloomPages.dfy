/** Bloom index pages (contrib/bloom/bloom.h:112-153, blutils.c:305-337, blvacuum.c:81-137, blinsert.c:43-150). */
module BloomPages {

  /** What fits a page of 8192 bytes beside its header and its special space. */
  const PAGE_SPACE: nat := 8192 - 24 - 8

  /** An entry: the heap row it points to, its signature's bits, and a running number that tells entries apart. */
  datatype Tuple = Tuple(tid: nat, bits: set<nat>, serial: nat)

  datatype Page = New | Page(tuples: seq<Tuple>, deleted: bool)

  /** sizeOfBloomTuple: a row pointer and 1 to 256 signature words. */
  predicate TupleSize(size: int) { 8 <= size <= 6 + 2 * 256 }

  /** One more tuple fits behind `n` tuples. */
  predicate Fits(n: nat, size: nat) { PAGE_SPACE - n * size >= size }

  predicate Unused(p: Page) { p.New? || p.deleted }

  /** The page an insertion works on: pages that were never used, or were deleted, are initialized again. */
  function Ready(p: Page): (r: Page)
    ensures r.Page? && !r.deleted
  {
    if Unused(p) then Page([], false) else p
  }

  function Keep(ts: seq<Tuple>, dead: set<nat>): seq<Tuple> {
    if ts == [] then []
    else
      var last := ts[|ts| - 1];
      Keep(ts[..|ts| - 1], dead) + if last.tid in dead then [] else [last]
  }

  lemma {:induction false} KeepMembers(ts: seq<Tuple>, dead: set<nat>, t: Tuple)
    ensures t in Keep(ts, dead) <==> t in ts && t.tid !in dead
  {
    if ts != [] {
      KeepMembers(ts[..|ts| - 1], dead, t);
      assert ts == ts[..|ts| - 1] + [ts[|ts| - 1]];
    }
  }

  ghost predicate NoDup(ts: seq<Tuple>) { forall i, j :: 0 <= i < j < |ts| ==> ts[i] != ts[j] }

  lemma {:induction false} KeepNoDup(ts: seq<Tuple>, dead: set<nat>)
    requires NoDup(ts)
    ensures NoDup(Keep(ts, dead)) && |Keep(ts, dead)| <= |ts|
  {
    if ts != [] {
      var last := ts[|ts| - 1];
      KeepNoDup(ts[..|ts| - 1], dead);
      KeepMembers(ts[..|ts| - 1], dead, last);
    }
  }

  lemma {:induction false} KeepAll(ts: seq<Tuple>, dead: set<nat>)
    ensures |Keep(ts, dead)| <= |ts| && (|Keep(ts, dead)| == |ts| ==> Keep(ts, dead) == ts)
  {
    if ts != [] {
      KeepAll(ts[..|ts| - 1], dead);
      assert ts == ts[..|ts| - 1] + [ts[|ts| - 1]];
    }
  }

  /** What bulk deletion makes of a page: an emptied page is marked deleted. */
  function Vacuumed(p: Page, dead: set<nat>): Page {
    if Unused(p) then p
    else
      var kept := Keep(p.tuples, dead);
      Page(kept, kept == [] && p.tuples != [])
  }

  lemma KeepNext(ts: seq<Tuple>, k: nat, dead: set<nat>)
    requires k < |ts|
    ensures Keep(ts[..k + 1], dead) == Keep(ts[..k], dead) + if ts[k].tid in dead then [] else [ts[k]]
    ensures |Keep(ts[..k], dead)| <= k
  {
    assert ts[..k + 1][..k] == ts[..k];
    KeepAll(ts[..k], dead);
  }

  /** A page in its buffer: slots for tuples, of which the first `maxoff` are in use. */
  class Buffer {
    const size: nat
    const data: array<Tuple>
    var maxoff: nat
    var deleted: bool

    ghost predicate Valid()
      reads this
    {
      TupleSize(size) && data.Length == PAGE_SPACE / size && maxoff <= data.Length
    }

    function View(): Page
      requires Valid()
      reads this, data
    {
      Page(data[..maxoff], deleted)
    }

    /** BloomInitPage. */
    constructor (size: nat)
      requires TupleSize(size)
      ensures Valid() && fresh(data) && this.size == size && View() == Page([], false)
    {
      this.size := size;
      data := new Tuple[PAGE_SPACE / size](_ => Tuple(0, {}, 0));
      maxoff, deleted := 0, false;
    }

    /** BloomPageAddItem: appends unless the page is full; the slot written is always one of the page's. */
    method AddItem(tuple: Tuple) returns (ok: bool)
      requires Valid() && !deleted
      modifies this`maxoff, data
      ensures Valid() && ok == Fits(old(maxoff), size)
      ensures View() == if ok then Page(old(View()).tuples + [tuple], false) else old(View())
    {
      if PAGE_SPACE - maxoff * size < size {
        return false;
      }
      RoomForOne(maxoff, size);
      data[maxoff] := tuple;
      maxoff := maxoff + 1;
      ok := true;
    }

    /** blbulkdelete on one page: an emptied page is marked deleted. */
    method Compact(dead: set<nat>)
      requires Valid() && !deleted
      modifies this`maxoff, this`deleted, data
      ensures Valid() && View() == Vacuumed(old(View()), dead)
    {
      KeepAll(data[..maxoff], dead);
      var n := maxoff;
      maxoff := CloseUp(data, maxoff, dead);
      if maxoff != n && maxoff == 0 {
        deleted := true;
      }
    }
  }

  /** The compaction loop: tuples that stay move down over those that go; `maxoff` counts what is left. */
  method CloseUp(data: array<Tuple>, n: nat, dead: set<nat>) returns (maxoff: nat)
    requires n <= data.Length
    modifies data
    ensures maxoff <= n && data[..maxoff] == Keep(old(data[..n]), dead)
  {
    ghost var ts := data[..n];
    ghost var kept: seq<Tuple> := [];
    var itup, itupPtr := 0, 0;
    maxoff := n;
    while itup < n
      invariant 0 <= itupPtr <= itup <= n && maxoff == n - (itup - itupPtr)
      invariant kept == Keep(ts[..itup], dead) && itupPtr == |kept|
      invariant forall k :: 0 <= k < itupPtr ==> data[k] == kept[k]
      invariant forall k :: itup <= k < n ==> data[k] == ts[k]
    {
      KeepNext(ts, itup, dead);
      if data[itup].tid in dead {
        maxoff := maxoff - 1;
      } else {
        data[itupPtr] := data[itup];
        itupPtr := itupPtr + 1;
        kept := kept + [ts[itup]];
      }
      itup := itup + 1;
    }
    assert ts[..n] == ts && data[..itupPtr] == kept;
  }

  lemma RoomForOne(n: nat, size: nat)
    requires TupleSize(size) && Fits(n, size)
    ensures n < PAGE_SPACE / size
  {
    var q := PAGE_SPACE / size;
    assert PAGE_SPACE < (q + 1) * size;
    if q <= n {
      Times(q + 1, n + 1, size);
    }
  }

  lemma Times(a: nat, b: nat, c: nat)
    requires a <= b
    ensures a * c <= b * c
  {
  }

  // Building an index

  /** A page that holds tuples, and no more than fit. */
  ghost predicate PageOk(p: Page, size: nat) {
    p.New? || (if p.deleted then p.tuples == [] else p.tuples != [] && |p.tuples| * size <= PAGE_SPACE)
  }

  function Flatten(pages: seq<Page>): seq<Tuple> {
    if pages == [] then []
    else
      var last := pages[|pages| - 1];
      Flatten(pages[..|pages| - 1]) + if last.New? then [] else last.tuples
  }

  lemma FlattenMore(pages: seq<Page>, p: Page)
    ensures Flatten(pages + [p]) == Flatten(pages) + if p.New? then [] else p.tuples
  {
    assert (pages + [p])[..|pages|] == pages;
  }

  lemma OneFits(size: nat)
    requires TupleSize(size)
    ensures Fits(0, size)
  {
  }

  lemma FitsBound(n: nat, size: nat)
    requires Fits(n, size)
    ensures (n + 1) * size <= PAGE_SPACE
  {
  }

  /** The metapage, and pages that hold all rows in order. */
  ghost predicate BuiltFrom(pages: seq<Page>, rows: seq<Tuple>, size: nat) {
    && pages != [] && pages[0] == New && Flatten(pages) == rows
    && forall p :: 0 < p < |pages| ==> PageOk(pages[p], size) && !Unused(pages[p])
  }

  lemma {:induction false} FlattenHas(pages: seq<Page>, n: nat, t: Tuple)
    requires n <= |pages|
    ensures t in Flatten(pages[..n]) <==> exists p :: 0 <= p < n && pages[p].Page? && t in pages[p].tuples
  {
    if n > 0 {
      FlattenHas(pages, n - 1, t);
      assert pages[..n][..n - 1] == pages[..n - 1];
    }
  }

  /** Where nothing comes twice in all pages, nothing comes twice on a page. */
  lemma {:induction false} FlattenNoDup(pages: seq<Page>, n: nat, p: nat)
    requires p < n <= |pages| && NoDup(Flatten(pages[..n])) && pages[p].Page?
    ensures NoDup(pages[p].tuples)
  {
    assert pages[..n][..n - 1] == pages[..n - 1];
    if p == n - 1 {
      NoDupParts(Flatten(pages[..n - 1]), pages[p].tuples);
    } else {
      NoDupParts(Flatten(pages[..n - 1]), if pages[n - 1].New? then [] else pages[n - 1].tuples);
      FlattenNoDup(pages, n - 1, p);
    }
  }

  lemma NoDupParts(a: seq<Tuple>, b: seq<Tuple>)
    requires NoDup(a + b)
    ensures NoDup(a) && NoDup(b) && forall t :: t in a ==> t !in b
  {
    var s := a + b;
    forall i, j | 0 <= i < j < |b| ensures b[i] != b[j] { assert s[|a| + i] != s[|a| + j]; }
    forall i, j | 0 <= i < j < |a| ensures a[i] != a[j] { assert s[i] != s[j]; }
    forall i, j | 0 <= i < |a| && 0 <= j < |b| ensures a[i] != b[j] { assert s[i] != s[|a| + j]; }
  }

  /** Nor on two pages. */
  lemma {:induction false} FlattenOnce(pages: seq<Page>, n: nat, p: nat, q: nat, t: Tuple)
    requires p < q < n <= |pages| && NoDup(Flatten(pages[..n]))
    requires pages[p].Page? && t in pages[p].tuples && pages[q].Page?
    ensures t !in pages[q].tuples
  {
    assert pages[..n][..n - 1] == pages[..n - 1];
    NoDupParts(Flatten(pages[..n - 1]), if pages[n - 1].New? then [] else pages[n - 1].tuples);
    if q == n - 1 {
      FlattenHas(pages, n - 1, t);
    } else {
      FlattenOnce(pages, n - 1, p, q, t);
    }
  }

  /** blbuild: fills one cached page after another and flushes each when the next tuple does not fit. */
  method Build(rows: seq<Tuple>, size: nat) returns (pages: seq<Page>)
    requires TupleSize(size)
    ensures BuiltFrom(pages, rows, size)
  {
    pages := [New];
    assert Flatten([New][..0]) == [];
    var cached: seq<Tuple> := [];
    for i := 0 to |rows|
      invariant pages != [] && pages[0] == New && Flatten(pages) + cached == rows[..i]
      invariant forall p :: 0 < p < |pages| ==> PageOk(pages[p], size) && !Unused(pages[p])
      invariant |cached| * size <= PAGE_SPACE && (i > 0 ==> cached != [])
    {
      assert rows[..i + 1] == rows[..i] + [rows[i]];
      OneFits(size);
      if Fits(|cached|, size) {
        FitsBound(|cached|, size);
        assert Flatten(pages) + (cached + [rows[i]]) == Flatten(pages) + cached + [rows[i]];
        cached := cached + [rows[i]];
      } else {
        FlattenMore(pages, Page(cached, false));
        pages := pages + [Page(cached, false)];
        cached := [rows[i]];
      }
    }
    assert rows[..|rows|] == rows;
    if cached != [] {
      FlattenMore(pages, Page(cached, false));
      pages := pages + [Page(cached, false)];
    }
  }
}
