/**
 intarray's GiST opclass over range-compressed keys (contrib/intarray/_int_gist.c, _int_tool.c): no
 search loses a row, however many levels of union and lossy compression lie above it.
 */
module IntGist {
  import opened IntRanges
  import opened IntRangesOptimal
  import Q = IntQueryExec

  // Sorted arrays

  ghost predicate Sorted(a: seq<int>) {
    forall i, j :: 0 <= i < j < |a| ==> a[i] <= a[j]
  }

  /** Two arrays hold the same elements. */
  ghost predicate SameElems(a: seq<int>, b: seq<int>) {
    forall x :: x in a <==> x in b
  }

  ghost predicate Within(a: seq<int>, b: seq<int>) {
    forall x :: x in a ==> x in b
  }

  ghost predicate Meet(a: seq<int>, b: seq<int>) {
    exists x :: x in a && x in b
  }

  /** inner_int_contains: a merge that stops at the first element of `b` missing from `a`. */
  method InnerContains(a: seq<int>, b: seq<int>) returns (r: bool)
    requires Increasing(a) && Increasing(b)
    ensures r <==> Within(b, a)
  {
    var i, j, n := 0, 0, 0;
    while i < |a| && j < |b| && a[i] <= b[j]
      invariant 0 <= i <= |a| && 0 <= j <= |b| && n == j
      invariant forall k :: 0 <= k < j ==> b[k] in a
      invariant forall k :: 0 <= k < i && j < |b| ==> a[k] < b[j]
    {
      if a[i] < b[j] {
        i := i + 1;
      } else {
        assert b[j] == a[i];
        n, i, j := n + 1, i + 1, j + 1;
      }
    }
    r := n == |b|;
    if j < |b| {
      assert b[j] !in a;
    }
  }

  /** inner_int_overlap: a merge that stops at the first common element. */
  method InnerOverlap(a: seq<int>, b: seq<int>) returns (r: bool)
    requires Sorted(a) && Sorted(b)
    ensures r <==> Meet(a, b)
  {
    var i, j := 0, 0;
    while i < |a| && j < |b|
      invariant 0 <= i <= |a| && 0 <= j <= |b|
      invariant forall k :: 0 <= k < i ==> a[k] !in b
      invariant forall k :: 0 <= k < j ==> b[k] !in a
    {
      if a[i] < b[j] {
        NotBefore(b, a[i], j, a, i);
        i := i + 1;
      } else if a[i] == b[j] {
        assert a[i] in a && a[i] in b;
        return true;
      } else {
        NotBefore(a, b[j], i, b, j);
        j := j + 1;
      }
    }
    return false;
  }

  lemma NotBefore(b: seq<int>, x: int, j: nat, a: seq<int>, i: nat)
    requires Sorted(b) && j < |b| && x < b[j] && i < |a| && x == a[i]
    requires forall k :: 0 <= k < j ==> b[k] !in a
    ensures x !in b
  {
    forall k | 0 <= k < |b| ensures b[k] != x {
      if k < j { assert b[k] !in a; }
    }
  }

  /** _int_unique: removes the duplicates of a sorted array in place. */
  method Unique(data: array<int>) returns (len: nat)
    requires Sorted(data[..])
    modifies data
    ensures len <= data.Length && Increasing(data[..len]) && SameElems(data[..len], old(data[..]))
  {
    var num := data.Length;
    if num < 2 {
      assert data[..num] == data[..];
      return num;
    }
    ghost var was := data[..];
    var tmp, dr := 1, 0;
    while tmp < num
      invariant 0 <= dr < tmp <= num && data[tmp..] == was[tmp..] && OnceEach(data[..dr + 1], was[..tmp])
    {
      NextOnce(was, tmp, data[..dr + 1]);
      dr := KeepNew(data, tmp, dr, was, data[..dr + 1]);
      tmp := tmp + 1;
    }
    assert was[..num] == was;
    len := dr + 1;
  }

  /** One turn of the loop: an element that is new moves up behind the others. */
  method KeepNew(data: array<int>, tmp: nat, dr: nat, ghost was: seq<int>, ghost done: seq<int>) returns (dr': nat)
    requires dr < tmp < data.Length == |was| && data[tmp..] == was[tmp..] && done == data[..dr + 1]
    modifies data
    ensures dr' <= dr + 1 && data[tmp + 1..] == was[tmp + 1..] && data[..dr' + 1] == Next(done, was[tmp])
  {
    assert data[tmp] == data[tmp..][0] == was[tmp] && done[dr] == data[dr];
    assert was[tmp + 1..] == was[tmp..][1..] == data[tmp + 1..];
    dr' := dr;
    if data[tmp] != data[dr] {
      dr' := dr + 1;
      data[dr'] := data[tmp];
    }
  }

  ghost function Next(done: seq<int>, x: int): seq<int>
    requires done != []
  {
    if x != done[|done| - 1] then done + [x] else done
  }

  /** `done` lists what is in `was`, each element once and the last one last. */
  ghost predicate OnceEach(done: seq<int>, was: seq<int>) {
    && done != [] && was != [] && done[|done| - 1] == was[|was| - 1]
    && Increasing(done) && SameElems(done, was)
  }

  lemma NextOnce(was: seq<int>, n: nat, done: seq<int>)
    requires 0 < n < |was| && Sorted(was) && OnceEach(done, was[..n])
    ensures OnceEach(Next(done, was[n]), was[..n + 1])
  {
    assert was[..n + 1] == was[..n] + [was[n]];
    assert was[..n][n - 1] == was[n - 1];
  }

  /** Stands for the library sort. */
  function Sort(s: seq<int>): (r: seq<int>)
    ensures Sorted(r) && SameElems(r, s)
  {
    if s == [] then []
    else
      var t := Sort(s[..|s| - 1]);
      InsertSorts(t, s[|s| - 1]);
      assert s == s[..|s| - 1] + [s[|s| - 1]];
      Insert(t, s[|s| - 1])
  }

  function Insert(s: seq<int>, x: int): seq<int> {
    if s == [] || s[|s| - 1] <= x then s + [x] else Insert(s[..|s| - 1], x) + [s[|s| - 1]]
  }

  lemma {:induction false} InsertSorts(s: seq<int>, x: int)
    requires Sorted(s)
    ensures Sorted(Insert(s, x)) && forall y :: y in Insert(s, x) <==> y in s || y == x
  {
    if s != [] && x < s[|s| - 1] {
      InsertSorts(s[..|s| - 1], x);
      assert s == s[..|s| - 1] + [s[|s| - 1]];
      var t := Insert(s[..|s| - 1], x);
      forall k | 0 <= k < |t| ensures t[k] <= s[|s| - 1] { assert t[k] in t; }
    }
  }

  /** SORT and _int_unique: the elements of an array, sorted, each once. */
  method Prepare(row: seq<int>) returns (r: seq<int>)
    ensures Increasing(r) && SameElems(r, row)
  {
    var s := Sort(row);
    var data := new int[|s|](i requires 0 <= i < |s| => s[i]);
    assert data[..] == s;
    var len := Unique(data);
    r := data[..len];
  }

  // Keys

  /** The bounds of disjoint ranges, in order. */
  ghost predicate Bounds(d: seq<int>) {
    && |d| % 2 == 0
    && (forall j :: 0 <= j < |d| / 2 ==> d[2 * j] <= d[2 * j + 1])
    && (forall j :: 0 < j < |d| / 2 ==> d[2 * j - 1] < d[2 * j])
  }

  ghost predicate InRange(d: seq<int>, j: int, x: int) {
    0 <= j && 2 * j + 1 < |d| && d[2 * j] <= x <= d[2 * j + 1]
  }

  ghost predicate InRanges(d: seq<int>, x: int) {
    exists j :: InRange(d, j, x)
  }

  /** A stored key: fewer than 200 elements, or the bounds of exactly 100 ranges. */
  ghost predicate ValidKey(key: seq<int>) {
    && (forall i :: 0 <= i < |key| ==> Int32(key[i]))
    && if |key| < 2 * MAX_NUM_RANGE then Increasing(key) else |key| == 2 * MAX_NUM_RANGE && Bounds(key)
  }

  /** What a stored key stands for once decompressed. */
  ghost predicate Holds(key: seq<int>, x: int) {
    if |key| < 2 * MAX_NUM_RANGE then x in key else InRanges(key, x)
  }

  ghost predicate Expands(key: seq<int>, r: seq<int>) {
    Increasing(r) && forall x :: x in r <==> Holds(key, x)
  }

  lemma OneMoreRange(d: seq<int>, i: nat, x: int)
    requires i % 2 == 0 && i + 1 < |d|
    ensures InRanges(d[..i + 2], x) <==> InRanges(d[..i], x) || d[i] <= x <= d[i + 1]
  {
    var e := d[..i + 2];
    if InRanges(e, x) {
      var j :| InRange(e, j, x);
      if 2 * j < i { assert InRange(d[..i], j, x); }
    }
    if InRanges(d[..i], x) {
      var j :| InRange(d[..i], j, x);
      assert InRange(e, j, x);
    }
    if d[i] <= x <= d[i + 1] { assert InRange(e, i / 2, x); }
  }

  lemma SizeGrows(d: seq<int>, i: nat)
    requires Bounds(d) && i % 2 == 0 && i + 1 < |d|
    ensures InternalSize(d[..i + 2]) == InternalSize(d[..i]) + d[i + 1] - d[i] + 1
  {
    assert d[..i + 2][..i] == d[..i];
    if i > 0 { assert d[2 * (i / 2) - 1] < d[2 * (i / 2)]; }
  }

  lemma {:induction false} SizeMonotone(d: seq<int>, i: nat)
    requires Bounds(d) && i % 2 == 0 && i <= |d|
    ensures 0 <= InternalSize(d[..i]) <= InternalSize(d) && (i > 0 ==> InternalSize(d[..i]) > 0)
    decreases |d| - i
  {
    SizeNat(d, i);
    if i < |d| {
      SizeGrows(d, i);
      assert d[2 * (i / 2)] <= d[2 * (i / 2) + 1];
      SizeMonotone(d, i + 2);
    } else {
      assert d[..i] == d;
    }
  }

  lemma {:induction false} SizeNat(d: seq<int>, i: nat)
    requires Bounds(d) && i % 2 == 0 && i <= |d|
    ensures 0 <= InternalSize(d[..i]) && (i > 0 ==> InternalSize(d[..i]) > 0)
  {
    if i > 0 {
      SizeNat(d, i - 2);
      SizeGrows(d, i - 2);
      assert d[2 * (i / 2 - 1)] <= d[2 * (i / 2 - 1) + 1];
    }
  }

  /** What the loop has written: the ranges before `i` and the integers of range `i` below `j`. */
  ghost predicate Written(d: seq<int>, i: int, j: int, s: seq<int>) {
    && 0 <= i <= |d| && Increasing(s)
    && forall x :: x in s <==> InRanges(d[..i], x) || (i < |d| && d[i] <= x < j)
  }

  lemma WriteOne(d: seq<int>, i: int, j: int, s: seq<int>)
    requires Bounds(d) && i % 2 == 0 && 0 <= i && i + 1 < |d| && Written(d, i, j, s) && d[i] <= j
    ensures Written(d, i, j + 1, s + [j]) && (s != [] ==> s[|s| - 1] < j)
  {
    forall k | 0 <= k < |s| ensures s[k] < j {
      assert s[k] in s;
      if InRanges(d[..i], s[k]) {
        var m :| InRange(d[..i], m, s[k]);
        BoundsApart(d, m, i / 2);
      }
    }
  }

  lemma {:induction false} BoundsApart(d: seq<int>, m: nat, n: nat)
    requires Bounds(d) && m < n && 2 * n < |d|
    ensures d[2 * m + 1] < d[2 * n]
    decreases n
  {
    assert d[2 * n - 1] < d[2 * n];
    if m < n - 1 {
      BoundsApart(d, m, n - 1);
      assert d[2 * (n - 1)] <= d[2 * (n - 1) + 1];
    }
  }

  /** g_int_decompress: lists the ranges of a compressed key; the array is filled exactly. */
  method Decompress(key: seq<int>) returns (r: seq<int>)
    requires ValidKey(key)
    ensures Expands(key, r)
    ensures if |key| < 2 * MAX_NUM_RANGE then r == key else |r| == InternalSize(key)
  {
    if |key| < 2 * MAX_NUM_RANGE {
      return key;
    }
    var lenr := InternalSizeLoop(key);
    SizeMonotone(key, 0);
    var dr := new int[lenr];
    var i, p := 0, 0;
    while i < |key|
      invariant 0 <= i <= |key| && i % 2 == 0 && 0 <= p <= lenr && p == InternalSize(key[..i])
      invariant Written(key, i, if i < |key| then key[i] else 0, dr[..p])
    {
      SizeGrows(key, i);
      SizeMonotone(key, i);
      SizeMonotone(key, i + 2);
      p := WriteRange(key, i, dr, p);
      assert Written(key, i + 2, if i + 2 < |key| then key[i + 2] else 0, dr[..p]) by {
        forall x ensures x in dr[..p] <==> InRanges(key[..i + 2], x) { OneMoreRange(key, i, x); }
      }
      i := i + 2;
    }
    assert key[..i] == key && dr[..p] == dr[..];
    r := dr[..];
  }

  method WriteRange(key: seq<int>, i: nat, dr: array<int>, p0: nat) returns (p: nat)
    requires Bounds(key) && i % 2 == 0 && i + 1 < |key| && p0 + key[i + 1] - key[i] + 1 <= dr.Length
    requires p0 <= dr.Length && Written(key, i, key[i], dr[..p0]) && (i == 0 ==> p0 == 0) && (i > 0 ==> p0 > 0)
    modifies dr
    ensures p == p0 + key[i + 1] - key[i] + 1 && Written(key, i, key[i + 1] + 1, dr[..p])
  {
    p := p0;
    assert key[2 * (i / 2)] <= key[2 * (i / 2) + 1];
    for j := key[i] to key[i + 1] + 1
      invariant p == p0 + j - key[i] && p <= dr.Length && Written(key, i, j, dr[..p])
    {
      ghost var s := dr[..p];
      WriteOne(key, i, j, s);
      if i == 0 || dr[p - 1] != j {
        dr[p] := j;
        p := p + 1;
      }
      assert dr[..p] == s + [j];
    }
  }

  // Compression keeps every element

  lemma FlatAt(a: seq<int>, ks: seq<int>, d: seq<int>, j: nat)
    requires Flat(a, ks, d) && j <= |ks|
    ensures d[2 * j] == (if j == 0 then a[0] else a[ks[j - 1]])
    ensures d[2 * j + 1] == (if j == |ks| then a[|a| - 1] else a[ks[j] - 1])
  {
    if j > 0 { assert d[2 * (j - 1) + 2] == a[ks[j - 1]]; }
  }

  lemma FlatBounds(a: seq<int>, ks: seq<int>, d: seq<int>)
    requires Key(a) && Flat(a, ks, d)
    ensures Bounds(d) && forall i :: 0 <= i < |d| ==> Int32(d[i])
  {
    forall j | 0 <= j < |d| / 2
      ensures d[2 * j] <= d[2 * j + 1] && (j > 0 ==> d[2 * j - 1] < d[2 * j])
      ensures Int32(d[2 * j]) && Int32(d[2 * j + 1])
    {
      FlatAt(a, ks, d, j);
      if j > 0 {
        FlatAt(a, ks, d, j - 1);
        assert j < |ks| ==> ks[j - 1] < ks[j];
      }
    }
    forall i | 0 <= i < |d| ensures Int32(d[i]) {
      assert i == 2 * (i / 2) || i == 2 * (i / 2) + 1;
    }
  }

  /** Range `j` or an earlier one covers element `i`, which lies before open gap `j`. */
  lemma {:induction false} FlatCovers(a: seq<int>, ks: seq<int>, d: seq<int>, i: nat, j: nat)
    requires Increasing(a) && Flat(a, ks, d) && i < |a| && j <= |ks| && (j < |ks| ==> i < ks[j])
    ensures InRanges(d, a[i])
    decreases j
  {
    if j > 0 && i < ks[j - 1] {
      FlatCovers(a, ks, d, i, j - 1);
    } else {
      FlatAt(a, ks, d, j);
      assert InRange(d, j, a[i]);
    }
  }

  ghost predicate CompressedTo(u: seq<int>, ks: seq<int>, key: seq<int>) {
    if |u| < 2 * MAX_NUM_RANGE then key == u
    else |ks| == MAX_NUM_RANGE - 1 && Greedy(u, ks) && Flat(u, ks, key)
  }

  lemma CompressionCovers(u: seq<int>, ks: seq<int>, key: seq<int>, x: int)
    requires Increasing(u) && CompressedTo(u, ks, key) && x in u
    ensures Holds(key, x)
  {
    if |u| >= 2 * MAX_NUM_RANGE {
      var i :| 0 <= i < |u| && u[i] == x;
      FlatCovers(u, ks, key, i, |ks|);
    }
  }

  /** The internal keys are valid again, so the whole construction can be repeated. */
  lemma CompressedIsValid(u: seq<int>, ks: seq<int>, key: seq<int>)
    requires Key(u) && CompressedTo(u, ks, key)
    ensures ValidKey(key)
  {
    if |u| >= 2 * MAX_NUM_RANGE { FlatBounds(u, ks, key); }
  }

  lemma HeldAreInt32(key: seq<int>, x: int)
    requires ValidKey(key) && Holds(key, x)
    ensures Int32(x)
  {
    if |key| >= 2 * MAX_NUM_RANGE {
      var j :| InRange(key, j, x);
      assert Int32(key[2 * j]) && Int32(key[2 * j + 1]);
    }
  }

  // Unions

  ghost predicate InSome(entries: seq<seq<int>>, x: int) {
    exists k :: 0 <= k < |entries| && x in entries[k]
  }

  function TotalLength(entries: seq<seq<int>>): nat {
    if entries == [] then 0 else TotalLength(entries[..|entries| - 1]) + |entries[|entries| - 1]|
  }

  lemma {:induction false} LengthUpTo(entries: seq<seq<int>>, i: nat)
    requires i <= |entries|
    ensures TotalLength(entries[..i]) <= TotalLength(entries)
    decreases |entries| - i
  {
    if i < |entries| {
      LengthUpTo(entries, i + 1);
      assert entries[..i + 1][..i] == entries[..i];
    } else {
      assert entries[..i] == entries;
    }
  }

  /** g_int_union: copies the entries one behind another, sorts them and drops duplicates. */
  method Union(entries: seq<seq<int>>) returns (r: seq<int>)
    ensures Increasing(r) && forall x :: x in r <==> InSome(entries, x)
  {
    var totlen := 0;
    for i := 0 to |entries|
      invariant totlen == TotalLength(entries[..i])
    {
      assert entries[..i + 1][..i] == entries[..i];
      totlen := totlen + |entries[i]|;
    }
    assert entries[..|entries|] == entries;
    var res := new int[totlen];
    var ptr := 0;
    for i := 0 to |entries|
      invariant 0 <= ptr <= totlen && ptr == TotalLength(entries[..i])
      invariant forall x :: x in res[..ptr] <==> InSome(entries[..i], x)
    {
      assert entries[..i + 1][..i] == entries[..i];
      LengthUpTo(entries, i + 1);
      ghost var before := res[..ptr];
      CopyTo(res, ptr, entries[i]);
      ptr := ptr + |entries[i]|;
      assert res[..ptr] == before + entries[i];
      assert forall x :: InSome(entries[..i + 1], x) <==> InSome(entries[..i], x) || x in entries[i] by {
        InSomeMore(entries, i);
      }
    }
    assert res[..ptr] == res[..];
    r := Prepare(res[..]);
  }

  method CopyTo(res: array<int>, ptr: nat, from: seq<int>)
    requires ptr + |from| <= res.Length
    modifies res
    ensures res[..ptr] == old(res[..ptr]) && res[ptr..ptr + |from|] == from
  {
    forall k | 0 <= k < |from| {
      res[ptr + k] := from[k];
    }
  }

  lemma InSomeMore(entries: seq<seq<int>>, i: nat)
    requires i < |entries|
    ensures forall x :: InSome(entries[..i + 1], x) <==> InSome(entries[..i], x) || x in entries[i]
  {
    forall x ensures InSome(entries[..i + 1], x) <==> InSome(entries[..i], x) || x in entries[i] {
      if InSome(entries[..i], x) {
        var k :| 0 <= k < i && x in entries[..i][k];
        assert x in entries[..i + 1][k];
      }
      if x in entries[i] { assert x in entries[..i + 1][i]; }
      if InSome(entries[..i + 1], x) {
        var k :| 0 <= k < i + 1 && x in entries[..i + 1][k];
        assert k < i ==> x in entries[..i][k];
      }
    }
  }

  ghost predicate HeldBySome(keys: seq<seq<int>>, x: int) {
    exists k :: 0 <= k < |keys| && Holds(keys[k], x)
  }

  ghost predicate JoinOf(keys: seq<seq<int>>, u: seq<int>) {
    Increasing(u) && forall x :: x in u <==> HeldBySome(keys, x)
  }

  /** The key stored above entries with the stored keys `keys`. */
  ghost predicate NodeKeyOf(keys: seq<seq<int>>, key: seq<int>) {
    exists u, ks :: JoinOf(keys, u) && CompressedTo(u, ks, key)
  }

  lemma JoinIsKey(keys: seq<seq<int>>, u: seq<int>)
    requires JoinOf(keys, u) && forall k :: 0 <= k < |keys| ==> ValidKey(keys[k])
    ensures Key(u)
  {
    forall i | 0 <= i < |u| ensures Int32(u[i]) {
      assert u[i] in u;
      var k :| 0 <= k < |keys| && Holds(keys[k], u[i]);
      HeldAreInt32(keys[k], u[i]);
    }
  }

  ghost predicate AllExpand(keys: seq<seq<int>>, open: seq<seq<int>>) {
    |open| == |keys| && forall k :: 0 <= k < |keys| ==> Expands(keys[k], open[k])
  }

  lemma ExpandedJoin(keys: seq<seq<int>>, open: seq<seq<int>>, u: seq<int>)
    requires AllExpand(keys, open) && Increasing(u) && forall x :: x in u <==> InSome(open, x)
    ensures JoinOf(keys, u)
  {
    forall x ensures x in u <==> HeldBySome(keys, x) {
      if InSome(open, x) {
        var k :| 0 <= k < |open| && x in open[k];
        assert Holds(keys[k], x);
      }
      if HeldBySome(keys, x) {
        var k :| 0 <= k < |keys| && Holds(keys[k], x);
        assert x in open[k];
      }
    }
  }

  /** What an index does to form a node key: decompress the keys below, join them, compress the join. */
  method NodeKey(keys: seq<seq<int>>) returns (key: seq<int>)
    requires forall k :: 0 <= k < |keys| ==> ValidKey(keys[k])
    ensures ValidKey(key) && NodeKeyOf(keys, key)
  {
    var open: seq<seq<int>> := [];
    for i := 0 to |keys|
      invariant |open| == i && forall k :: 0 <= k < i ==> Expands(keys[k], open[k])
    {
      var r := Decompress(keys[i]);
      open := open + [r];
    }
    var u := Union(open);
    ExpandedJoin(keys, open, u);
    JoinIsKey(keys, u);
    ghost var ks;
    key, ks := Compress(u);
    CompressedIsValid(u, ks, key);
    assert JoinOf(keys, u) && CompressedTo(u, ks, key);
  }

  // The index

  /** An index entry: a row with its key, or a node key above entries (an older key of the same node included). */
  datatype Entry = Row(elems: seq<int>, key: seq<int>) | Node(parts: seq<Entry>, key: seq<int>)

  ghost function Keys(parts: seq<Entry>): seq<seq<int>> {
    seq(|parts|, k requires 0 <= k < |parts| => parts[k].key)
  }

  /** Every key is the one the opclass forms; rows have fewer than 200 distinct elements. */
  ghost predicate Built(e: Entry) {
    match e
    case Row(elems, key) => |key| < 2 * MAX_NUM_RANGE && Increasing(key) && SameElems(key, elems)
    case Node(parts, key) => NodeKeyOf(Keys(parts), key) && forall k :: 0 <= k < |parts| ==> Built(parts[k])
  }

  ghost predicate Below(e: Entry, row: seq<int>) {
    match e
    case Row(elems, _) => row == elems
    case Node(parts, _) => exists k :: 0 <= k < |parts| && Below(parts[k], row)
  }

  /** However many levels up, a key holds every element of every row below it. */
  lemma {:induction false} KeyCovers(e: Entry, row: seq<int>, x: int)
    requires Built(e) && Below(e, row) && x in row
    ensures Holds(e.key, x)
    decreases e
  {
    if e.Node? {
      var k :| 0 <= k < |e.parts| && Below(e.parts[k], row);
      KeyCovers(e.parts[k], row, x);
      assert Holds(Keys(e.parts)[k], x);
      var u, ks :| JoinOf(Keys(e.parts), u) && CompressedTo(u, ks, e.key);
      assert HeldBySome(Keys(e.parts), x);
      CompressionCovers(u, ks, e.key, x);
    }
  }

  // Searches

  datatype Search =
    | Overlap(q: seq<int>)
    | Contains(q: seq<int>)
    | Same(q: seq<int>)
    | ContainedBy(q: seq<int>)
    | Boolean(items: seq<Q.Item>, query: Q.Query)

  ghost predicate WellFormed(s: Search) {
    s.Boolean? ==> Q.Stores(s.items, 0, s.query) && |s.items| == Q.Size(s.query) && Q.LinksFit(s.query)
  }

  /** What the operator behind the search says of a row. */
  ghost predicate Matches(s: Search, row: seq<int>) {
    match s
    case Overlap(q) => Meet(row, q)
    case Contains(q) => Within(q, row)
    case Same(q) => row == q
    case ContainedBy(q) => Within(row, q)
    case Boolean(_, query) => Q.Eval(query, x => x in row)
  }

  /** What the consistency function answers for a key. */
  ghost predicate Test(s: Search, key: seq<int>, leaf: bool) {
    match s
    case Overlap(q) => exists x :: x in q && Holds(key, x)
    case Contains(q) => forall x :: x in q ==> Holds(key, x)
    case Same(q) => forall x :: (x in q ==> Holds(key, x)) && (leaf && Holds(key, x) ==> x in q)
    case ContainedBy(q) =>
      if leaf then forall x :: Holds(key, x) ==> x in q else exists x :: x in q && Holds(key, x)
    case Boolean(_, query) =>
      if leaf then Q.Eval(query, x => Holds(key, x)) else Q.Relax(query, x => Holds(key, x))
  }

  lemma SameSetSameKey(a: seq<int>, b: seq<int>)
    requires Increasing(a) && Increasing(b) && SameElems(a, b)
    ensures a == b
  {
    if a != [] || b != [] {
      var z := if a != [] then a[0] else b[0];
      assert z in a && z in b;
      var x := a[|a| - 1];
      var y := b[|b| - 1];
      assert x in b && y in a && x == y;
      var a', b' := a[..|a| - 1], b[..|b| - 1];
      forall z ensures z in a' <==> z in b' {
        assert z in a' <==> z in a && z != x;
        assert z in b' <==> z in b && z != x;
      }
      SameSetSameKey(a', b');
      assert a == a' + [x] && b == b' + [x];
    }
  }

  /** g_int_consistent on a decompressed key; only equality needs the row to be looked at again. */
  method Consistent(s: Search, open: seq<int>, leaf: bool, ghost key: seq<int>) returns (retval: bool, recheck: bool)
    requires WellFormed(s) && Expands(key, open)
    ensures retval == Test(s, key, leaf) && recheck == s.Same?
  {
    recheck := s.Same?;
    if s.Boolean? {
      var items := s.items;
      var check := i => 0 <= i < |items| && items[i].node.Num? && items[i].node.val in open;
      Q.ExecuteMeans(items, 0, s.query, leaf, x => Holds(key, x), check);
      retval := Q.Execute(items, |items| - 1, leaf, check);
      return;
    }
    var q := Prepare(s.q);
    match s
    case Overlap(_) =>
      retval := InnerOverlap(open, q);
    case Same(_) =>
      if leaf {
        retval := open == q;
        if SameElems(open, q) { SameSetSameKey(open, q); }
      } else {
        retval := InnerContains(open, q);
      }
    case Contains(_) =>
      retval := InnerContains(open, q);
    case ContainedBy(_) =>
      if leaf {
        retval := InnerContains(q, open);
      } else {
        retval := InnerOverlap(open, q);
      }
  }

  /** The search returns `row` from below `e`: every test on the way answers yes, and the recheck too. */
  ghost predicate Reached(e: Entry, s: Search, row: seq<int>) {
    && Test(s, e.key, e.Row?)
    && match e
       case Row(elems, _) => row == elems && (s.Same? ==> Matches(s, row))
       case Node(parts, _) => exists k :: 0 <= k < |parts| && Reached(parts[k], s, row)
  }

  lemma EvalSame(q: Q.Query, f: int -> bool, g: int -> bool)
    requires forall x :: f(x) == g(x)
    ensures Q.Eval(q, f) == Q.Eval(q, g)
  {
  }

  /** On a row's own key the test is the operator, but for equality, which it only covers. */
  lemma LeafTest(e: Entry, s: Search)
    requires e.Row? && Built(e)
    ensures Matches(s, e.elems) ==> Test(s, e.key, true)
    ensures !s.Same? && Test(s, e.key, true) ==> Matches(s, e.elems)
  {
    assert forall x :: Holds(e.key, x) <==> x in e.elems;
    if s.Boolean? {
      EvalSame(s.query, x => x in e.elems, x => Holds(e.key, x));
    }
  }

  /** No test above a matching row turns the search away. */
  lemma NodeTest(e: Entry, s: Search, row: seq<int>)
    requires Built(e) && Below(e, row) && Matches(s, row) && (s.ContainedBy? ==> row != [])
    ensures Test(s, e.key, false)
  {
    forall x | x in row ensures Holds(e.key, x) { KeyCovers(e, row, x); }
    match s
    case Boolean(_, query) => Q.RelaxCovers(query, x => x in row, x => Holds(e.key, x));
    case ContainedBy(q) =>
      var x := SharedElement(row, q);
      assert Holds(e.key, x);
    case _ =>
  }

  lemma SharedElement(row: seq<int>, q: seq<int>) returns (x: int)
    requires row != [] && Within(row, q)
    ensures x in row && x in q
  {
    x := row[0];
    assert x in row;
  }

  /** A search returns exactly the matching rows (for contained-by: but possibly without empty arrays). */
  lemma {:induction false} SearchIsExact(e: Entry, s: Search, row: seq<int>)
    requires Built(e) && (s.ContainedBy? ==> row != [])
    ensures Reached(e, s, row) <==> Below(e, row) && Matches(s, row)
    decreases e
  {
    match e
    case Row(_, _) =>
      if row == e.elems { LeafTest(e, s); }
    case Node(parts, _) =>
      forall k | 0 <= k < |parts| ensures Reached(parts[k], s, row) <==> Below(parts[k], row) && Matches(s, row) {
        SearchIsExact(parts[k], s, row);
      }
      if Below(e, row) && Matches(s, row) { NodeTest(e, s, row); }
  }

  /** Contained-by finds a row in every index and for every query it matches, exactly when the row is not empty. */
  lemma ContainedByIff(row: seq<int>)
    ensures (forall e, q :: Built(e) && Below(e, row) && Within(row, q) ==> Reached(e, ContainedBy(q), row)) <==> row != []
  {
    if row == [] {
      var leaf := Row([], []);
      var e := Node([leaf], []);
      assert JoinOf(Keys([leaf]), []) && CompressedTo([], [], []);
      assert Built(leaf) && Built(e) && Below(leaf, row);
      assert Below(e.parts[0], row);
      assert Below(e, row) && Within(row, []) && !Reached(e, ContainedBy([]), row);
    } else {
      forall e, q | Built(e) && Below(e, row) && Within(row, q) ensures Reached(e, ContainedBy(q), row) {
        SearchIsExact(e, ContainedBy(q), row);
      }
    }
  }

  /** Elements 2j and 2j + 1 are neighbouring integers, for every j. */
  ghost predicate PairsTouch(key: seq<int>) {
    forall j :: 0 <= j < |key| / 2 ==> key[2 * j + 1] == key[2 * j] + 1
  }

  lemma TouchingPairs(key: seq<int>, x: int)
    requires |key| % 2 == 0 && PairsTouch(key) && InRanges(key, x)
    ensures x in key
  {
    var j :| InRange(key, j, x);
    assert key[2 * j + 1] == key[2 * j] + 1;
  }

  lemma ElementsHold(key: seq<int>, i: nat)
    requires Increasing(key) && |key| % 2 == 0 && i < |key|
    ensures InRanges(key, key[i])
  {
    assert InRange(key, i / 2, key[i]);
  }

  lemma TouchingHolds(key: seq<int>, x: int)
    requires Increasing(key) && |key| % 2 == 0 && PairsTouch(key)
    ensures InRanges(key, x) <==> x in key
  {
    if InRanges(key, x) { TouchingPairs(key, x); }
    if x in key {
      var i :| 0 <= i < |key| && key[i] == x;
      ElementsHold(key, i);
    }
  }

  /** The leaf test of every search but equality, which is rechecked, says what the operator says of the row. */
  ghost predicate LeafExact(row: seq<int>) {
    forall s: Search :: !s.Same? ==> (Test(s, row, true) <==> Matches(s, row))
  }

  lemma BetweenPairs(key: seq<int>) returns (x: int)
    requires Increasing(key) && |key| % 2 == 0 && !PairsTouch(key)
    ensures InRanges(key, x) && x !in key
  {
    var j :| 0 <= j < |key| / 2 && key[2 * j + 1] != key[2 * j] + 1;
    x := key[2 * j] + 1;
    assert key[2 * j] < x < key[2 * j + 1];
    assert InRange(key, j, x);
  }

  /**
   A row of 200 or more elements is stored as it is but read back as ranges. The tests on it are right for
   every search exactly when those ranges hold nothing but the elements.
   */
  lemma LongRowIff(row: seq<int>)
    requires Increasing(row) && |row| >= 2 * MAX_NUM_RANGE && |row| % 2 == 0
    ensures LeafExact(row) <==> PairsTouch(row)
  {
    if PairsTouch(row) {
      forall x ensures Holds(row, x) <==> x in row { TouchingHolds(row, x); }
      forall s: Search | !s.Same? ensures Test(s, row, true) <==> Matches(s, row) {
        if s.Boolean? { EvalSame(s.query, x => x in row, x => Holds(row, x)); }
      }
    } else {
      var x := BetweenPairs(row);
      assert x in [x];
      assert Test(Overlap([x]), row, true) && !Matches(Overlap([x]), row);
    }
  }
}
