/**
 Stored queries: findoprnd's operand links, the evaluator execute, and the exact and approximate
 tests that index searches make with it (contrib/intarray/_int_bool.c, _int_gin.c).
 */
module IntQueryExec {
  import opened IntQuerySyntax
  import opened IntQueryGrammar

  /** What a query means: a binary node is a conjunction or a disjunction. */
  datatype Query = Leaf(v: int) | Not(q: Query) | Bin(conj: bool, l: Query, r: Query)

  /** An expression without its parentheses. */
  function Strip(e: Expr): Query {
    match e
    case Lit(v) => Leaf(v)
    case Neg(f) => Not(Strip(f))
    case Paren(x) => Strip(x)
    case Conj(l, r) => Bin(true, Strip(l), Strip(r))
    case Disj(l, r) => Bin(false, Strip(l), Strip(r))
  }

  function Size(q: Query): (n: nat)
    ensures n > 0
  {
    match q
    case Leaf(_) => 1
    case Not(p) => Size(p) + 1
    case Bin(_, l, r) => Size(l) + Size(r) + 1
  }

  function Root(q: Query): Node {
    match q
    case Leaf(v) => Num(v)
    case Not(_) => Op('!')
    case Bin(conj, _, _) => Op(if conj then '&' else '|')
  }

  function Nodes(q: Query): (s: seq<Node>)
    ensures |s| == Size(q)
  {
    match q
    case Leaf(_) => [Root(q)]
    case Not(p) => Nodes(p) + [Root(q)]
    case Bin(_, l, r) => Nodes(l) + Nodes(r) + [Root(q)]
  }

  lemma StripPostfix(e: Expr)
    ensures Postfix(e) == Nodes(Strip(e))
  {
  }

  function Eval(q: Query, holds: int -> bool): bool {
    match q
    case Leaf(v) => holds(v)
    case Not(p) => !Eval(p, holds)
    case Bin(conj, l, r) =>
      if conj then Eval(l, holds) && Eval(r, holds) else Eval(l, holds) || Eval(r, holds)
  }

  /** A stored item; `left` is a signed 16-bit field. */
  datatype Item = Item(node: Node, left: int)

  const QUERYTYPE_MAX_ITEMS: nat := 134217726

  /** Conversion to int16. */
  function Int16(x: int): int { (x + 0x8000) % 0x10000 - 0x8000 }

  /** `items[lo..lo + Size(q)]` is `q` in postfix. */
  ghost predicate Spells(items: seq<Item>, lo: nat, q: Query)
    decreases q
  {
    var root := lo + Size(q) - 1;
    root < |items| && items[root].node == Root(q) &&
    match q
    case Leaf(_) => true
    case Not(p) => Spells(items, lo, p)
    case Bin(_, l, r) => Spells(items, lo, l) && Spells(items, lo + Size(l), r)
  }

  /** Moreover, each link is what findoprnd stores. */
  ghost predicate Stores(items: seq<Item>, lo: nat, q: Query)
    decreases q
  {
    var root := lo + Size(q) - 1;
    root < |items| && items[root].node == Root(q) &&
    match q
    case Leaf(_) => items[root].left == 0
    case Not(p) => items[root].left == -1 && Stores(items, lo, p)
    case Bin(_, l, r) =>
      items[root].left == Int16(-(Size(r) + 1)) && Stores(items, lo, l) && Stores(items, lo + Size(l), r)
  }

  ghost predicate HasNodes(items: seq<Item>, nodes: seq<Node>) {
    |items| == |nodes| && forall i :: 0 <= i < |items| ==> items[i].node == nodes[i]
  }

  lemma {:induction false} SpellsNodes(items: seq<Item>, pre: seq<Node>, q: Query, post: seq<Node>)
    requires HasNodes(items, pre + Nodes(q) + post)
    ensures Spells(items, |pre|, q)
    decreases q
  {
    LastOf(pre, Nodes(q), post);
    match q
    case Leaf(_) =>
    case Not(p) =>
      GroupNot(pre, Nodes(p), [Root(q)], post);
      SpellsNodes(items, pre, p, [Root(q)] + post);
    case Bin(_, l, r) =>
      GroupBin(pre, Nodes(l), Nodes(r), [Root(q)], post);
      SpellsNodes(items, pre, l, Nodes(r) + [Root(q)] + post);
      SpellsNodes(items, pre + Nodes(l), r, [Root(q)] + post);
  }

  lemma LastOf<T>(a: seq<T>, b: seq<T>, c: seq<T>)
    requires b != []
    ensures (a + b + c)[|a| + |b| - 1] == b[|b| - 1]
  {
  }

  lemma GroupNot<T>(pre: seq<T>, p: seq<T>, root: seq<T>, post: seq<T>)
    ensures pre + p + (root + post) == pre + (p + root) + post
  {
  }

  lemma GroupBin<T>(pre: seq<T>, l: seq<T>, r: seq<T>, root: seq<T>, post: seq<T>)
    ensures pre + l + (r + root + post) == pre + (l + r + root) + post == (pre + l) + r + (root + post)
  {
  }

  lemma {:induction false} SpellsFrame(items: seq<Item>, items': seq<Item>, lo: nat, q: Query)
    requires |items| == |items'| && forall i :: 0 <= i < |items| ==> items[i].node == items'[i].node
    ensures Spells(items, lo, q) ==> Spells(items', lo, q)
    decreases q
  {
    match q
    case Leaf(_) =>
    case Not(p) => SpellsFrame(items, items', lo, p);
    case Bin(_, l, r) => SpellsFrame(items, items', lo, l); SpellsFrame(items, items', lo + Size(l), r);
  }

  lemma {:induction false} StoresFrame(items: seq<Item>, items': seq<Item>, lo: nat, q: Query)
    requires lo + Size(q) <= |items| == |items'| && forall i :: lo <= i < lo + Size(q) ==> items[i] == items'[i]
    ensures Stores(items, lo, q) ==> Stores(items', lo, q)
    decreases q
  {
    match q
    case Leaf(_) =>
    case Not(p) => StoresFrame(items, items', lo, p);
    case Bin(_, l, r) => StoresFrame(items, items', lo, l); StoresFrame(items, items', lo + Size(l), r);
  }

  /** Nodes are as they were, and so is everything outside `lo..hi`. */
  ghost predicate Kept(a: seq<Item>, b: seq<Item>, lo: int, hi: int) {
    |a| == |b| && forall k :: 0 <= k < |a| ==> a[k].node == b[k].node && (!(lo <= k <= hi) ==> a[k] == b[k])
  }

  /** Right operand, own link and left operand, one after another. */
  lemma BinaryStored(s0: seq<Item>, s1: seq<Item>, s2: seq<Item>, s3: seq<Item>, lo: nat, q: Query)
    requires q.Bin? && Spells(s0, lo, q)
    requires var mid, root := lo + Size(q.l), lo + Size(q) - 1;
      && Kept(s0, s1, mid, root - 1) && Stores(s1, mid, q.r)
      && s2 == s1[root := s1[root].(left := Int16(-(Size(q.r) + 1)))]
      && Kept(s2, s3, lo, mid - 1) && Stores(s3, lo, q.l)
    ensures Stores(s3, lo, q) && Kept(s0, s3, lo, lo + Size(q) - 1)
  {
    StoresFrame(s1, s3, lo + Size(q.l), q.r);
  }

  lemma NotStored(s0: seq<Item>, s1: seq<Item>, s2: seq<Item>, lo: nat, q: Query)
    requires q.Not? && Spells(s0, lo, q)
    requires var root := lo + Size(q) - 1;
      && s1 == s0[root := s0[root].(left := -1)]
      && Kept(s1, s2, lo, root - 1) && Stores(s2, lo, q.q)
    ensures Stores(s2, lo, q) && Kept(s0, s2, lo, lo + Size(q) - 1)
  {
  }

  /** Fills in the operand links of the postfix query that ends at `pos`. */
  method FindOprnd(ptr: array<Item>, pos: nat, ghost lo: nat, ghost q: Query) returns (next: int)
    requires pos < ptr.Length && lo + Size(q) == pos + 1 && Spells(ptr[..], lo, q)
    modifies ptr
    ensures next == lo - 1 && Stores(ptr[..], lo, q) && Kept(old(ptr[..]), ptr[..], lo, pos)
    decreases q
  {
    ghost var before := ptr[..];
    match ptr[pos].node {
      case Num(_) =>
        ptr[pos] := ptr[pos].(left := 0);
        next := pos - 1;
      case Op(op) =>
        if op == '!' {
          ptr[pos] := ptr[pos].(left := -1);
          ghost var linked := ptr[..];
          SpellsFrame(before, linked, lo, q.q);
          next := FindOprnd(ptr, pos - 1, lo, q.q);
          NotStored(before, linked, ptr[..], lo, q);
        } else {
          next := FindOprnd(ptr, pos - 1, lo + Size(q.l), q.r);
          ghost var right := ptr[..];
          ptr[pos] := ptr[pos].(left := Int16(next - pos));
          ghost var linked := ptr[..];
          SpellsFrame(before, linked, lo, q.l);
          next := FindOprnd(ptr, next, lo, q.l);
          BinaryStored(before, right, linked, ptr[..], lo, q);
        }
    }
  }

  /** No right operand is too big for a 16-bit link. */
  predicate LinksFit(q: Query) {
    match q
    case Leaf(_) => true
    case Not(p) => LinksFit(p)
    case Bin(_, l, r) => Size(r) <= 0x7fff && LinksFit(l) && LinksFit(r)
  }

  lemma SmallQueriesFit(q: Query)
    requires Size(q) <= 0x7fff
    ensures LinksFit(q)
  {
  }

  /** Every link that execute would follow leads to the left operand. */
  ghost predicate LinksRight(items: seq<Item>, lo: nat, q: Query)
    requires Stores(items, lo, q)
    decreases q
  {
    match q
    case Leaf(_) => true
    case Not(p) => LinksRight(items, lo, p)
    case Bin(_, l, r) =>
      lo + Size(q) - 1 + items[lo + Size(q) - 1].left == lo + Size(l) - 1 &&
      LinksRight(items, lo, l) && LinksRight(items, lo + Size(l), r)
  }

  /** The 16-bit links are all right exactly when no right operand exceeds 32767 items. */
  lemma {:induction false} LinksRightIff(items: seq<Item>, lo: nat, q: Query)
    requires Stores(items, lo, q)
    ensures LinksRight(items, lo, q) <==> LinksFit(q)
    decreases q
  {
    match q
    case Leaf(_) =>
    case Not(p) => LinksRightIff(items, lo, p);
    case Bin(_, l, r) => LinksRightIff(items, lo, l); LinksRightIff(items, lo + Size(l), r);
  }

  /** The smallest right operands whose link is cut: the link leads forward, past the end of the query. */
  lemma CutLink(items: seq<Item>, q: Query)
    requires |items| == Size(q) && Stores(items, 0, q) && q.Bin? && Size(q.r) == 0x8000
    ensures !LinksFit(q) && items[|items| - 1].left == 0x7fff
  {
  }

  /** What findoprnd stores for a query. */
  function ItemsOf(q: Query): (s: seq<Item>)
    ensures |s| == Size(q)
  {
    match q
    case Leaf(_) => [Item(Root(q), 0)]
    case Not(p) => ItemsOf(p) + [Item(Root(q), -1)]
    case Bin(_, l, r) => ItemsOf(l) + ItemsOf(r) + [Item(Root(q), Int16(-(Size(r) + 1)))]
  }

  /** Every query has a stored form. */
  lemma {:induction false} ItemsStored(pre: seq<Item>, q: Query, post: seq<Item>)
    ensures Stores(pre + ItemsOf(q) + post, |pre|, q)
    decreases q
  {
    LastOf(pre, ItemsOf(q), post);
    match q
    case Leaf(_) =>
    case Not(p) =>
      GroupNot(pre, ItemsOf(p), [Item(Root(q), -1)], post);
      ItemsStored(pre, p, [Item(Root(q), -1)] + post);
    case Bin(_, l, r) =>
      var root := [Item(Root(q), Int16(-(Size(r) + 1)))];
      GroupBin(pre, ItemsOf(l), ItemsOf(r), root, post);
      ItemsStored(pre, l, ItemsOf(r) + root + post);
      ItemsStored(pre + ItemsOf(l), r, root + post);
  }

  /** execute can follow every link from item `i`. */
  predicate Linked(items: seq<Item>, i: int)
    decreases i
  {
    0 <= i < |items| &&
    match items[i].node
    case Num(_) => true
    case Op(op) =>
      if op == '!' then Linked(items, i - 1)
      else items[i].left < 0 && Linked(items, i + items[i].left) && Linked(items, i - 1)
  }

  function Execute(items: seq<Item>, i: int, calcnot: bool, check: int -> bool): bool
    requires Linked(items, i)
    decreases i
  {
    match items[i].node
    case Num(_) => check(i)
    case Op(op) =>
      if op == '!' then calcnot ==> !Execute(items, i - 1, calcnot, check)
      else if op == '&' then
        Execute(items, i + items[i].left, calcnot, check) && Execute(items, i - 1, calcnot, check)
      else
        Execute(items, i + items[i].left, calcnot, check) || Execute(items, i - 1, calcnot, check)
  }

  /** A query with every negation taken to hold. */
  function Relax(q: Query, holds: int -> bool): bool {
    match q
    case Leaf(v) => holds(v)
    case Not(_) => true
    case Bin(conj, l, r) =>
      if conj then Relax(l, holds) && Relax(r, holds) else Relax(l, holds) || Relax(r, holds)
  }

  /** `check` answers, per item, whether the value of the item holds. */
  ghost predicate Checks(items: seq<Item>, holds: int -> bool, check: int -> bool) {
    forall i :: 0 <= i < |items| && items[i].node.Num? ==> check(i) == holds(items[i].node.val)
  }

  lemma LinkIs(items: seq<Item>, lo: nat, q: Query)
    requires q.Bin? && Stores(items, lo, q) && Size(q.r) < 0x8000
    ensures var root := lo + Size(q) - 1; items[root].left == -(Size(q.r) + 1) && items[root].node == Root(q)
  {
  }

  lemma {:induction false} StoredIsLinked(items: seq<Item>, lo: nat, q: Query)
    requires Stores(items, lo, q) && LinksFit(q)
    ensures Linked(items, lo + Size(q) - 1)
    decreases q
  {
    match q
    case Leaf(_) =>
    case Not(p) => StoredIsLinked(items, lo, p);
    case Bin(_, l, r) =>
      LinkIs(items, lo, q);
      StoredIsLinked(items, lo, l);
      StoredIsLinked(items, lo + Size(l), r);
  }

  lemma BinaryStep(items: seq<Item>, i: int, left: int, right: int, conj: bool, calcnot: bool, check: int -> bool)
    requires Linked(items, i) && Linked(items, left) && Linked(items, right) && right == i - 1
    requires items[i] == Item(Op(if conj then '&' else '|'), left - i)
    ensures var l, r := Execute(items, left, calcnot, check), Execute(items, right, calcnot, check);
      Execute(items, i, calcnot, check) == if conj then l && r else l || r
  {
  }

  lemma BinaryRoot(items: seq<Item>, lo: nat, q: Query) returns (i: int, left: int, right: int)
    requires q.Bin? && Stores(items, lo, q) && LinksFit(q)
    ensures i == lo + Size(q) - 1 && left == lo + Size(q.l) - 1 && right == lo + Size(q.l) + Size(q.r) - 1 == i - 1
    ensures 0 <= left < i < |items| && items[i] == Item(Op(if q.conj then '&' else '|'), left - i)
    ensures Stores(items, lo, q.l) && Stores(items, lo + Size(q.l), q.r)
  {
    i, left, right := lo + Size(q) - 1, lo + Size(q.l) - 1, lo + Size(q) - 2;
  }

  /** What execute is to compute: the meaning of the query or, without calcnot, its relaxation. */
  function Meaning(q: Query, calcnot: bool, holds: int -> bool): bool {
    if calcnot then Eval(q, holds) else Relax(q, holds)
  }

  lemma BinaryMeans(items: seq<Item>, lo: nat, q: Query, calcnot: bool, holds: int -> bool, check: int -> bool)
    requires q.Bin? && Stores(items, lo, q) && LinksFit(q)
    requires Linked(items, lo + Size(q.l) - 1) && Linked(items, lo + Size(q.l) + Size(q.r) - 1)
    requires Execute(items, lo + Size(q.l) - 1, calcnot, check) == Meaning(q.l, calcnot, holds)
    requires Execute(items, lo + Size(q.l) + Size(q.r) - 1, calcnot, check) == Meaning(q.r, calcnot, holds)
    ensures Linked(items, lo + Size(q) - 1)
    ensures Execute(items, lo + Size(q) - 1, calcnot, check) == Meaning(q, calcnot, holds)
  {
    var i, left, right := BinaryRoot(items, lo, q);
    StoredIsLinked(items, lo, q);
    BinaryStep(items, i, left, right, q.conj, calcnot, check);
  }

  /** The evaluator computes the meaning of the query. */
  lemma {:induction false} ExecuteMeans(items: seq<Item>, lo: nat, q: Query, calcnot: bool,
                                        holds: int -> bool, check: int -> bool)
    requires Stores(items, lo, q) && LinksFit(q) && Checks(items, holds, check)
    ensures Linked(items, lo + Size(q) - 1)
    ensures Execute(items, lo + Size(q) - 1, calcnot, check) == Meaning(q, calcnot, holds)
    decreases q
  {
    match q
    case Leaf(_) =>
    case Not(p) =>
      ExecuteMeans(items, lo, p, calcnot, holds, check);
    case Bin(_, l, r) =>
      ExecuteMeans(items, lo, l, calcnot, holds, check);
      ExecuteMeans(items, lo + Size(l), r, calcnot, holds, check);
      BinaryMeans(items, lo, q, calcnot, holds, check);
  }

  /** Relaxing over more values never turns a match away. */
  lemma {:induction false} RelaxCovers(q: Query, holds: int -> bool, more: int -> bool)
    requires forall v :: holds(v) ==> more(v)
    ensures Eval(q, holds) ==> Relax(q, more)
  {
    match q
    case Leaf(_) =>
    case Not(_) =>
    case Bin(_, l, r) => RelaxCovers(l, holds, more); RelaxCovers(r, holds, more);
  }

  // Input

  datatype Input = Stored(items: seq<Item>) | BadSyntax | TooComplexQuery | TooManyItems

  /** What bqarr_in yields for a text: an error, or the stored form of the query the text writes. */
  ghost predicate InputMeans(text: string, r: Input) {
    match Parse(text)
    case SyntaxError => r == BadSyntax
    case TooComplex => r == TooComplexQuery
    case Parsed(_, _, _, out) =>
      if |out| > QUERYTYPE_MAX_ITEMS then r == TooManyItems
      else r.Stored? && |r.items| == |out| &&
           exists e :: Writes(text, e) && Fits(e, 0) && out == Nodes(Strip(e)) && Stores(r.items, 0, Strip(e))
  }

  /** Copies the nodes into items, last one first, and links them. */
  method LinkNodes(nodes: seq<Node>, ghost q: Query) returns (items: seq<Item>)
    requires nodes == Nodes(q)
    ensures |items| == |nodes| && Stores(items, 0, q)
  {
    var ptr := CopyNodes(nodes);
    assert [] + Nodes(q) + [] == nodes;
    SpellsNodes(ptr[..], [], q, []);
    var _ := FindOprnd(ptr, |nodes| - 1, 0, q);
    items := ptr[..];
  }

  method CopyNodes(nodes: seq<Node>) returns (ptr: array<Item>)
    ensures fresh(ptr) && HasNodes(ptr[..], nodes)
  {
    var n := |nodes|;
    ptr := new Item[n](_ => Item(Num(0), 0));
    var i := n;
    while i > 0
      invariant 0 <= i <= n && forall k :: i <= k < n ==> ptr[k].node == nodes[k]
    {
      i := i - 1;
      ptr[i] := Item(nodes[i], 0);
    }
  }

  method BqarrIn(text: string) returns (r: Input)
    ensures InputMeans(text, r)
  {
    var state := new WorkState(text);
    var status := state.MakePolish();
    match status
    case Syntax => return BadSyntax;
    case Complex => return TooComplexQuery;
    case Ok =>
      var nodes := state.str;
      ParseIff(text, nodes);
      ghost var e :| Writes(text, e) && Fits(e, 0) && nodes == Postfix(e);
      StripPostfix(e);
      if |nodes| > QUERYTYPE_MAX_ITEMS {
        return TooManyItems;
      }
      var items := LinkNodes(nodes, Strip(e));
      r := Stored(items);
  }

  // Searching a sorted array

  /** Is the value in the sorted array? */
  method CheckConditionArr(arr: array<int>, val: int) returns (found: bool)
    requires forall i, j :: 0 <= i < j < arr.Length ==> arr[i] <= arr[j]
    ensures found <==> val in arr[..]
  {
    var low, high := 0, arr.Length;
    while low < high
      invariant 0 <= low <= high <= arr.Length
      invariant forall i :: 0 <= i < low ==> arr[i] < val
      invariant forall i :: high <= i < arr.Length ==> val < arr[i]
    {
      var middle := low + (high - low) / 2;
      if arr[middle] == val {
        return true;
      } else if arr[middle] < val {
        low := middle + 1;
      } else {
        high := middle;
      }
    }
    return false;
  }

  /** boolop on the elements of an array. */
  function BoolOp(items: seq<Item>, elems: set<int>): bool
    requires Linked(items, |items| - 1)
  {
    Execute(items, |items| - 1, true, i => 0 <= i < |items| && items[i].node.Num? && items[i].node.val in elems)
  }

  lemma BoolOpMeans(items: seq<Item>, q: Query, elems: set<int>)
    requires Stores(items, 0, q) && |items| == Size(q) && LinksFit(q)
    ensures Linked(items, |items| - 1) && BoolOp(items, elems) == Eval(q, v => v in elems)
  {
    ExecuteMeans(items, 0, q, true, v => v in elems,
                 i => 0 <= i < |items| && items[i].node.Num? && items[i].node.val in elems);
  }

  // GIN

  /** The values GIN looks up: those of the VAL items, in item order. */
  function Values(items: seq<Item>): seq<int> {
    if items == [] then []
    else
      var last := items[|items| - 1].node;
      Values(items[..|items| - 1]) + if last.Num? then [last.val] else []
  }

  method GinQueryExtract(items: seq<Item>) returns (entries: seq<int>)
    ensures entries == Values(items)
  {
    entries := [];
    for i := 0 to |items|
      invariant entries == Values(items[..i])
    {
      assert items[..i + 1][..i] == items[..i];
      if items[i].node.Num? {
        entries := entries + [items[i].node.val];
      }
    }
    assert items[..|items|] == items;
  }

  lemma {:induction false} ValuesAt(items: seq<Item>, i: nat)
    requires i < |items| && items[i].node.Num?
    ensures |Values(items[..i])| < |Values(items)| && Values(items)[|Values(items[..i])|] == items[i].node.val
  {
    var n := |items| - 1;
    if i < n {
      ValuesAt(items[..n], i);
      assert items[..n][..i] == items[..i];
    } else {
      assert items[..i] == items[..n];
    }
  }

  /** `check[j]` says whether the j-th extracted value holds. */
  ghost predicate Answers(items: seq<Item>, check: seq<bool>, holds: int -> bool) {
    |check| == |Values(items)| && forall j :: 0 <= j < |check| ==> check[j] == holds(Values(items)[j])
  }

  /** Each VAL item is mapped to the answer for its value. */
  ghost predicate Mapped(items: seq<Item>, check: seq<bool>, mapped: seq<bool>, n: nat) {
    n <= |items| <= |mapped| && forall k :: 0 <= k < n && items[k].node.Num? ==>
      |Values(items[..k])| < |check| && mapped[k] == check[|Values(items[..k])|]
  }

  lemma MappedNext(items: seq<Item>, check: seq<bool>, before: seq<bool>, after: seq<bool>, i: nat)
    requires i < |items| && Mapped(items, check, before, i) && |after| == |before|
    requires forall k :: 0 <= k < |after| && k != i ==> after[k] == before[k]
    requires items[i].node.Num? ==> |Values(items[..i])| < |check| && after[i] == check[|Values(items[..i])|]
    ensures Mapped(items, check, after, i + 1)
  {
  }

  lemma MappedMeans(items: seq<Item>, check: seq<bool>, mapped: seq<bool>, q: Query, holds: int -> bool)
    requires Stores(items, 0, q) && |items| == Size(q) && LinksFit(q)
    requires Answers(items, check, holds) && Mapped(items, check, mapped, |items|)
    ensures Linked(items, |items| - 1)
    ensures Execute(items, |items| - 1, true, (i: int) => 0 <= i < |mapped| && mapped[i]) == Eval(q, holds)
  {
    var at := (i: int) => 0 <= i < |mapped| && mapped[i];
    forall i | 0 <= i < |items| && items[i].node.Num? ensures at(i) == holds(items[i].node.val) {
      ValuesAt(items, i);
    }
    ExecuteMeans(items, 0, q, true, holds, at);
  }

  /** `check[j]` belongs to the j-th extracted value, but execute asks by item number. */
  method GinBoolConsistent(items: seq<Item>, check: seq<bool>, ghost q: Query, ghost holds: int -> bool)
    returns (res: bool)
    requires Stores(items, 0, q) && |items| == Size(q) && LinksFit(q) && Answers(items, check, holds)
    ensures res == Eval(q, holds)
  {
    var mapped := new bool[|items|](_ => false);
    var j := 0;
    for i := 0 to |items|
      invariant j == |Values(items[..i])| && Mapped(items, check, mapped[..], i)
    {
      assert items[..i + 1][..i] == items[..i];
      ghost var before := mapped[..];
      if items[i].node.Num? {
        ValuesAt(items, i);
        mapped[i] := check[j];
        j := j + 1;
      }
      MappedNext(items, check, before, mapped[..], i);
    }
    var m := mapped[..];
    MappedMeans(items, check, m, q, holds);
    res := Execute(items, |items| - 1, true, (i: int) => 0 <= i < |m| && m[i]);
  }

  function ContainsRequiredValue(items: seq<Item>, i: int): bool
    requires Linked(items, i)
    decreases i
  {
    match items[i].node
    case Num(_) => true
    case Op(op) =>
      if op == '!' then false
      else if op == '&' then
        ContainsRequiredValue(items, i + items[i].left) || ContainsRequiredValue(items, i - 1)
      else
        ContainsRequiredValue(items, i + items[i].left) && ContainsRequiredValue(items, i - 1)
  }

  /** When a query has required values, every array it accepts holds one of the extracted values. */
  lemma {:induction false} RequiredValue(items: seq<Item>, i: int, check: int -> bool) returns (k: int)
    requires Linked(items, i) && ContainsRequiredValue(items, i) && Execute(items, i, true, check)
    ensures 0 <= k <= i && items[k].node.Num? && check(k)
    decreases i
  {
    match items[i].node
    case Num(_) => k := i;
    case Op(op) =>
      if ContainsRequiredValue(items, i + items[i].left) && Execute(items, i + items[i].left, true, check) {
        k := RequiredValue(items, i + items[i].left, check);
      } else {
        k := RequiredValue(items, i - 1, check);
      }
  }

  /** The rows GIN passes to the consistency test: all of them, or those with a looked-up value. */
  function GinCandidates(rows: set<set<int>>, items: seq<Item>): set<set<int>>
    requires items != [] ==> Linked(items, |items| - 1)
  {
    if items == [] then {}
    else if ContainsRequiredValue(items, |items| - 1) then
      set row | row in rows && exists v :: v in row && v in Values(items)
    else rows
  }

  /** No row that the query accepts is missing from the candidates, so GIN search is exact. */
  lemma GinMissesNothing(rows: set<set<int>>, items: seq<Item>, q: Query, row: set<int>)
    requires Stores(items, 0, q) && |items| == Size(q) && LinksFit(q) && row in rows
    ensures Linked(items, |items| - 1)
    ensures Eval(q, v => v in row) ==> row in GinCandidates(rows, items)
  {
    BoolOpMeans(items, q, row);
    if Eval(q, v => v in row) && ContainsRequiredValue(items, |items| - 1) {
      var check := (i: int) => 0 <= i < |items| && items[i].node.Num? && items[i].node.val in row;
      var k := RequiredValue(items, |items| - 1, check);
      ValuesAt(items, k);
      assert items[k].node.val in row && items[k].node.val in Values(items);
    }
  }

  /** The answers GIN has for a row: whether it holds each of the extracted values. */
  function AnswersFor(items: seq<Item>, row: set<int>): seq<bool> {
    seq(|Values(items)|, j requires 0 <= j < |Values(items)| => Values(items)[j] in row)
  }

  /** gin_bool_consistent finds the answer for item `i` by counting the VAL items before it. */
  predicate AnswerAt(items: seq<Item>, check: seq<bool>, i: int) {
    0 <= i < |items| && |Values(items[..i])| < |check| && check[|Values(items[..i])|]
  }

  /** The row is looked at, and the consistency test accepts it. */
  ghost predicate GinReturns(rows: set<set<int>>, items: seq<Item>, row: set<int>)
    requires Linked(items, |items| - 1)
  {
    && row in GinCandidates(rows, items)
    && Execute(items, |items| - 1, true, (i: int) => AnswerAt(items, AnswersFor(items, row), i))
  }

  lemma AnswersMean(items: seq<Item>, q: Query, row: set<int>)
    requires Stores(items, 0, q) && |items| == Size(q) && LinksFit(q)
    ensures Linked(items, |items| - 1)
    ensures Execute(items, |items| - 1, true, (i: int) => AnswerAt(items, AnswersFor(items, row), i)) ==
            Eval(q, v => v in row)
  {
    var check := AnswersFor(items, row);
    forall i | 0 <= i < |items| && items[i].node.Num? ensures AnswerAt(items, check, i) == (items[i].node.val in row) {
      ValuesAt(items, i);
    }
    ExecuteMeans(items, 0, q, true, v => v in row, (i: int) => AnswerAt(items, check, i));
  }

  /** A GIN search returns exactly the rows that satisfy the query, with required values or without. */
  lemma GinSearchIsExact(rows: set<set<int>>, items: seq<Item>, q: Query, row: set<int>)
    requires Stores(items, 0, q) && |items| == Size(q) && LinksFit(q)
    ensures Linked(items, |items| - 1)
    ensures GinReturns(rows, items, row) <==> row in rows && Eval(q, v => v in row)
  {
    AnswersMean(items, q, row);
    if row in rows { GinMissesNothing(rows, items, q, row); }
  }
}
