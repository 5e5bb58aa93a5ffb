/**
 The read-only btree check (contrib/amcheck/verify_nbtree.c) over a page graph that may be corrupt in any
 way: the check of one page. Keys are given by their rank.
 */
module BtreeCheck {

  /** Also what "no block" is in a sibling link. */
  const P_NONE: nat := 0

  /** An item: its key, and the block it points to on internal pages. */
  datatype Line = Line(key: int, child: nat)

  datatype Page = Page(leaf: bool, halfDead: bool, deleted: bool, root: bool, garbage: bool,
                       prev: nat, next: nat, level: nat, lines: seq<Line>)

  /**
   An index file: what the metapage says of the root, and the pages. Block 0 is the metapage; its `lines`
   stand for whatever its bytes read as.
   */
  datatype Index = Index(root: nat, level: nat, pages: seq<Page>)

  predicate Ignored(p: Page) { p.halfDead || p.deleted }

  /** P_FIRSTDATAKEY: all pages but the rightmost begin with a high key. */
  function FirstData(p: Page): nat { if p.next == P_NONE then 0 else 1 }

  /** The first item that is not the negative infinity item of an internal page. */
  function FirstReal(p: Page): nat { if p.leaf then FirstData(p) else FirstData(p) + 1 }

  /** palloc_btree_page: the block exists and passes the basic checks. */
  predicate Readable(ix: Index, b: nat) {
    && 0 < b < |ix.pages|
    && var p := ix.pages[b];
       && (!p.deleted ==> (p.leaf <==> p.level == 0))
       && (!p.leaf ==> FirstData(p) < |p.lines| && !p.halfDead && !p.garbage)
       && (p.leaf && p.next != P_NONE ==> |p.lines| > 0)
  }

  // One page

  /** The checks of a page's contents pass over the metapage. */
  predicate Fetched(ix: Index, b: nat) { if b == 0 then |ix.pages| > 0 else Readable(ix, b) }

  /** bt_downlink_check: the downlink's key bounds the child's items. */
  ghost predicate ChildOk(ix: Index, child: nat, key: int) {
    Fetched(ix, child) && !ix.pages[child].deleted &&
    forall j :: FirstReal(ix.pages[child]) <= j < |ix.pages[child].lines| ==> key <= ix.pages[child].lines[j].key
  }

  /** The block met after `n` steps to the right. */
  ghost function Walk(ix: Index, start: nat, n: nat): nat {
    if n == 0 then start else
      var b := Walk(ix, start, n - 1);
      if b < |ix.pages| then ix.pages[b].next else P_NONE
  }

  /** The search for a right page goes on from here. */
  predicate Skipped(ix: Index, b: nat) { Readable(ix, b) && Ignored(ix.pages[b]) && ix.pages[b].next != P_NONE }

  /** The search that begins at block `c` ends after `n` steps. */
  ghost predicate StopsAt(ix: Index, c: nat, n: nat) {
    (forall k :: 0 <= k < n ==> Skipped(ix, Walk(ix, c, k))) && !Skipped(ix, Walk(ix, c, n))
  }

  /** `b` can be read, and its first real item, if it has one, is not before `key`. */
  ghost predicate FirstItemOk(ix: Index, b: nat, key: int) {
    Readable(ix, b) &&
    var r := ix.pages[b]; FirstReal(r) < |r.lines| ==> key <= r.lines[FirstReal(r)].key
  }

  /** bt_right_page_check_scankey: the page to compare with is the first one that is not to be ignored. */
  ghost predicate RightOk(ix: Index, p: Page, key: int) {
    p.next == P_NONE || exists n :: StopsAt(ix, p.next, n) && FirstItemOk(ix, Walk(ix, p.next, n), key)
  }

  /** A live right page is the one compared with. */
  lemma LiveNext(ix: Index, p: Page, key: int)
    requires p.next != P_NONE && !Skipped(ix, p.next)
    ensures RightOk(ix, p, key) <==> FirstItemOk(ix, p.next, key)
  {
    assert Walk(ix, p.next, 0) == p.next;
    assert StopsAt(ix, p.next, 0);
    forall n | n > 0 ensures !StopsAt(ix, p.next, n) {
      assert !Skipped(ix, Walk(ix, p.next, 0));
    }
  }

  ghost predicate ItemOk(ix: Index, p: Page, k: nat)
    requires k < |p.lines| && FirstReal(p) <= k
  {
    && (p.next != P_NONE ==> p.lines[k].key <= p.lines[0].key)
    && (k + 1 < |p.lines| ==> p.lines[k].key <= p.lines[k + 1].key)
    && (k + 1 == |p.lines| ==> RightOk(ix, p, p.lines[k].key))
    && (!p.leaf ==> ChildOk(ix, p.lines[k].child, p.lines[k].key))
  }

  /** bt_target_page_check finds no fault. */
  ghost predicate TargetOk(ix: Index, p: Page) {
    forall k :: FirstReal(p) <= k < |p.lines| ==> ItemOk(ix, p, k)
  }

  method ChildCheck(ix: Index, child: nat, key: int) returns (ok: bool)
    ensures ok <==> ChildOk(ix, child, key)
  {
    if !Fetched(ix, child) || ix.pages[child].deleted {
      return false;
    }
    var c := ix.pages[child];
    var j := FirstReal(c);
    while j < |c.lines|
      invariant forall k :: FirstReal(c) <= k < j && k < |c.lines| ==> key <= c.lines[k].key
    {
      if key > c.lines[j].key {
        return false;
      }
      j := j + 1;
    }
    ok := true;
  }

  /** The search that begins at block `c` comes to an end. */
  ghost predicate SearchEnds(ix: Index, c: nat) { exists n :: StopsAt(ix, c, n) }

  lemma StopsOnce(ix: Index, p: Page, key: int, n: nat)
    requires p.next != P_NONE && StopsAt(ix, p.next, n)
    ensures RightOk(ix, p, key) <==> FirstItemOk(ix, Walk(ix, p.next, n), key)
  {
    forall m: nat | StopsAt(ix, p.next, m) ensures m == n {
      assert m < n ==> Skipped(ix, Walk(ix, p.next, m));
      assert n < m ==> Skipped(ix, Walk(ix, p.next, n));
    }
  }

  /** bt_right_page_check_scankey and the comparison behind it, wherever the search ends. */
  method RightCheck(ix: Index, p: Page, key: int) returns (ok: bool)
    requires p.next != P_NONE ==> SearchEnds(ix, p.next)
    ensures ok <==> RightOk(ix, p, key)
  {
    if p.next == P_NONE {
      return true;
    }
    ghost var n: nat :| StopsAt(ix, p.next, n);
    ghost var i := 0;
    var c := p.next;
    while Skipped(ix, c)
      invariant i <= n && c == Walk(ix, p.next, i)
      decreases n - i
    {
      c := ix.pages[c].next;
      i := i + 1;
    }
    StopsOnce(ix, p, key, n);
    if !Readable(ix, c) {
      return false;
    }
    var r := ix.pages[c];
    ok := FirstReal(r) >= |r.lines| || key <= r.lines[FirstReal(r)].key;
  }

  /** The check of the items of a page gets as far as the search. */
  ghost predicate Searches(ix: Index, p: Page) {
    && p.next != P_NONE && FirstReal(p) < |p.lines| && p.lines[|p.lines| - 1].key <= p.lines[0].key
    && forall k :: FirstReal(p) <= k < |p.lines| - 1 ==> ItemOk(ix, p, k)
  }

  /** bt_target_page_check, unless it gets to a search that never ends. */
  method TargetCheck(ix: Index, p: Page) returns (ok: bool)
    requires Searches(ix, p) ==> SearchEnds(ix, p.next)
    ensures ok <==> TargetOk(ix, p)
  {
    var k := FirstReal(p);
    while k < |p.lines|
      invariant FirstReal(p) <= k && forall j :: FirstReal(p) <= j < k && j < |p.lines| ==> ItemOk(ix, p, j)
    {
      ok := ItemCheck(ix, p, k);
      if !ok {
        return;
      }
      k := k + 1;
    }
    ok := true;
  }

  method ItemCheck(ix: Index, p: Page, k: nat) returns (ok: bool)
    requires FirstReal(p) <= k < |p.lines|
    requires k + 1 == |p.lines| && p.next != P_NONE && p.lines[k].key <= p.lines[0].key ==> SearchEnds(ix, p.next)
    ensures ok <==> ItemOk(ix, p, k)
  {
    var key := p.lines[k].key;
    if p.next != P_NONE && key > p.lines[0].key {
      return false;
    }
    if k + 1 < |p.lines| && key > p.lines[k + 1].key {
      return false;
    } else if k + 1 == |p.lines| {
      ok := RightCheck(ix, p, key);
      if !ok {
        return;
      }
    }
    if !p.leaf {
      ok := ChildCheck(ix, p.lines[k].child, key);
      return;
    }
    ok := true;
  }
}
