/**
 The output side of query_int (contrib/intarray/_int_bool.c, infix and bqarr_out), and what the printed text
 says: the same query up to the grouping of `&`.
 */
module IntQueryPrint {
  import opened IntQuerySyntax
  import opened Sequences
  import opened Buffers
  import opened Wrappers
  import opened IntQueryGrammar
  import opened IntQueryExec

  function Digits(n: nat): string {
    if n < 10 then [('0' as int + n) as char] else Digits(n / 10) + [('0' as int + n % 10) as char]
  }

  /** `%d` */
  function Decimal(v: int): string {
    if v < 0 then "-" + Digits(-v) else Digits(v)
  }

  /** What infix prints for `q`. */
  function Show(q: Query, first: bool): string {
    match q
    case Leaf(v) => Decimal(v)
    case Not(p) => if p.Leaf? then "!" + Show(p, false) else "!( " + Show(p, true) + " )"
    case Bin(true, l, r) => Show(l, false) + " & " + Show(r, false)
    case Bin(false, l, r) =>
      if first then Show(l, false) + " | " + Show(r, false)
      else "( " + (Show(l, false) + " | " + Show(r, false)) + " )"
  }

  predicate Int32Leaves(q: Query) {
    match q
    case Leaf(v) => INT32_MIN <= v <= INT32_MAX
    case Not(p) => Int32Leaves(p)
    case Bin(_, l, r) => Int32Leaves(l) && Int32Leaves(r)
  }

  lemma {:induction false} DigitsLength(n: nat, k: nat, limit: nat)
    requires n < limit && limit == Pow10(k) && k > 0
    ensures |Digits(n)| <= k
    decreases k
  {
    if n >= 10 {
      DigitsLength(n / 10, k - 1, Pow10(k - 1));
    }
  }

  function Pow10(k: nat): nat { if k == 0 then 1 else 10 * Pow10(k - 1) }

  lemma DecimalLength(v: int)
    requires INT32_MIN <= v <= INT32_MAX
    ensures 1 <= |Decimal(v)| <= 11
  {
    assert Pow10(10) == 10000000000 by {
      assert Pow10(5) == 100000;
    }
    DigitsLength(if v < 0 then -v else v, 10, Pow10(10));
  }

  function Max(a: nat, b: nat): nat { if a < b then b else a }

  /**
   The most characters that a buffer has, or reserves beyond what it has, while `q` is printed behind `at`
   characters; a number always reserves 11, and a right operand is printed into a buffer of its own.
   */
  function Room(q: Query, first: bool, at: nat): (n: nat)
    ensures n >= at + |Show(q, first)|
    decreases q, 1
  {
    match q
    case Leaf(v) => Max(at + 11, at + |Decimal(v)|)
    case Not(p) =>
      if p.Leaf? then Room(p, false, at + 1)
      else Max(Room(p, true, at + 3), at + 3 + |Show(p, true)| + 2)
    case Bin(true, _, _) => PairRoom(q, at)
    case Bin(false, l, r) =>
      if first then PairRoom(q, at)
      else Max(PairRoom(q, at + 2), at + 2 + |Show(l, false)| + 3 + |Show(r, false)| + 2)
  }

  function PairRoom(q: Query, at: nat): (n: nat)
    requires q.Bin?
    ensures n >= at + |Show(q.l, false)| + 3 + |Show(q.r, false)|
    decreases q, 0
  {
    Max(Room(q.r, false, 0), Max(Room(q.l, false, at), at + |Show(q.l, false)| + 3 + |Show(q.r, false)|))
  }

  /** What is reserved exceeds the text by at most ten characters. */
  lemma {:induction false} RoomBound(q: Query, first: bool, at: nat)
    requires Int32Leaves(q)
    ensures at + |Show(q, first)| <= Room(q, first, at) <= at + |Show(q, first)| + 10
  {
    match q
    case Leaf(v) => DecimalLength(v);
    case Not(p) => RoomBound(p, !p.Leaf?, if p.Leaf? then at + 1 else at + 3);
    case Bin(conj, l, r) =>
      RoomBound(r, false, 0);
      RoomBound(l, false, if conj || first then at else at + 2);
  }

  /** `s` in parentheses behind `b`. */
  function Wrapped(b: string, s: string): string { b + "( " + s + " )" }

  /** All requests of the print stay below the largest buffer. */
  predicate Prints(q: Query, first: bool, at: nat) { Room(q, first, at) + 1 < TOP_BYTES }

  /** The printer: INFIX with its growing buffer. */
  class Infix {
    const items: seq<Item>
    var curpol: int
    var buf: string
    var buflen: nat

    constructor (items: seq<Item>, curpol: int, buflen: nat)
      ensures this.items == items && this.curpol == curpol && this.buflen == buflen && buf == ""
    {
      this.items, this.curpol, this.buflen, buf := items, curpol, buflen, "";
    }

    /** The text and its terminator fit the buffer. */
    ghost predicate TextFits()
      reads this
    {
      |buf| < buflen && DoublesTo(buflen, TOP_BYTES)
    }

    /** RESIZEBUF for `add` characters, then the string with its terminator; fails when the buffer is refused. */
    method Append(add: nat, s: string) returns (ok: bool)
      requires |s| <= add && TextFits()
      modifies this`buf, this`buflen
      ensures ok <==> |old(buf)| + add + 1 < TOP_BYTES
      ensures ok ==> buf == old(buf) + s && TextFits()
    {
      while |buf| + add + 1 >= buflen
        invariant buf == old(buf) && TextFits()
        decreases |buf| + add + 1 - buflen
      {
        Grows(buflen, TOP_BYTES, 1);
        if 2 * buflen > MAX_ALLOC {
          return false;
        }
        buflen := buflen * 2;
      }
      buf := buf + s;
      ok := true;
    }

    ghost predicate Ready(lo: nat, q: Query)
      reads this
    {
      curpol == lo + Size(q) - 1 && Spells(items, lo, q) && Int32Leaves(q) && TextFits()
    }

    method Print(first: bool, ghost lo: nat, ghost q: Query) returns (ok: bool)
      requires Ready(lo, q)
      modifies this
      ensures ok <==> Prints(q, first, |old(buf)|)
      ensures ok ==> curpol == lo - 1 && TextFits() && buf == old(buf) + Show(q, first)
      decreases q, 3
    {
      match items[curpol].node {
        case Num(val) =>
          DecimalLength(val);
          ok := Append(11, Decimal(val));
          curpol := curpol - 1;
        case Op(op) =>
          curpol := curpol - 1;
          if op == '!' {
            ok := PrintNot(first, lo, q);
          } else {
            ok := PrintBin(op, first, lo, q);
          }
      }
    }

    method PrintNot(ghost first: bool, ghost lo: nat, ghost q: Query) returns (ok: bool)
      requires q.Not? && Ready(lo, q.q)
      modifies this
      ensures ok <==> Prints(q, first, |old(buf)|)
      ensures ok ==> curpol == lo - 1 && TextFits() && buf == old(buf) + Show(q, first)
      decreases q, 0
    {
      NotBehind(q, first, buf);
      NotRoom(q, first, |buf|);
      ok := Append(1, "!");
      if !ok {
        return;
      }
      ok := PrintNegated(lo, q.q);
    }

    /** What stands behind the sign of a negation. */
    method PrintNegated(ghost lo: nat, ghost q: Query) returns (ok: bool)
      requires Ready(lo, q)
      modifies this
      ensures ok <==> NegatedRoom(q, |old(buf)|) + 1 < TOP_BYTES
      ensures ok ==> curpol == lo - 1 && TextFits() && buf == NegatedText(old(buf), q)
      decreases q, 5
    {
      var isopr := items[curpol].node.Op?;
      if isopr {
        ok := PrintNested(lo, q);
      } else {
        ok := Print(false, lo, q);
      }
    }

    /** The operand of a negation in parentheses. */
    method PrintNested(ghost lo: nat, ghost q: Query) returns (ok: bool)
      requires Ready(lo, q)
      modifies this
      ensures ok <==> Prints(q, true, |old(buf)| + 2) && |old(buf)| + 2 + |Show(q, true)| + 2 + 1 < TOP_BYTES
      ensures ok ==> curpol == lo - 1 && TextFits() && buf == Wrapped(old(buf), Show(q, true))
      decreases q, 4
    {
      ok := Append(2, "( ");
      if !ok {
        return;
      }
      ok := Print(true, lo, q);
      if !ok {
        return;
      }
      ok := Append(2, " )");
    }

    method PrintBin(op: char, first: bool, ghost lo: nat, ghost q: Query) returns (ok: bool)
      requires q.Bin? && op == (if q.conj then '&' else '|') && Ready(lo + Size(q.l), q.r)
      requires Spells(items, lo, q.l) && Int32Leaves(q.l)
      modifies this
      ensures ok <==> Prints(q, first, |old(buf)|)
      ensures ok ==> curpol == lo - 1 && TextFits() && buf == old(buf) + Show(q, first)
      decreases q, 2
    {
      BinBehind(q, first, buf);
      if op == '|' && !first {
        ok := PrintGroup(op, lo, q);
      } else {
        ok := PrintPair(op, lo, q);
      }
    }

    /** Two operands in parentheses. */
    method PrintGroup(op: char, ghost lo: nat, ghost q: Query) returns (ok: bool)
      requires q.Bin? && Ready(lo + Size(q.l), q.r) && Spells(items, lo, q.l) && Int32Leaves(q.l)
      modifies this
      ensures ok <==> Max(PairRoom(q, |old(buf)| + 2), |old(buf)| + 4 + |PairText(op, q)|) + 1 < TOP_BYTES
      ensures ok ==> curpol == lo - 1 && TextFits() && buf == Wrapped(old(buf), PairText(op, q))
      decreases q, 1
    {
      ok := Append(2, "( ");
      if !ok {
        return;
      }
      ok := PrintPair(op, lo, q);
      if !ok {
        return;
      }
      ok := Append(2, " )");
    }

    /** Prints the right operand, which is stored first, into a buffer of its own. */
    method PrintApart(ghost lo: nat, ghost q: Query) returns (text: Option<string>, next: int)
      requires Ready(lo, q)
      ensures text.Some? <==> Prints(q, false, 0)
      ensures text.Some? ==> text.value == Show(q, false) && next == lo - 1
      decreases q, 4
    {
      ByteBuffers();
      var nrm := new Infix(items, curpol, 16);
      var ok := nrm.Print(false, lo, q);
      text, next := if ok then Some(nrm.buf) else None, nrm.curpol;
    }

    method PrintPair(op: char, ghost lo: nat, ghost q: Query) returns (ok: bool)
      requires q.Bin? && Ready(lo + Size(q.l), q.r) && Spells(items, lo, q.l) && Int32Leaves(q.l)
      modifies this
      ensures ok <==> PairRoom(q, |old(buf)|) + 1 < TOP_BYTES
      ensures ok ==> curpol == lo - 1 && TextFits() && buf == old(buf) + PairText(op, q)
      decreases q, 0
    {
      ghost var b0 := buf;
      var right, next := PrintApart(lo + Size(q.l), q.r);
      if right.None? {
        return false;
      }
      curpol := next;
      ok := Print(false, lo, q.l);
      if !ok {
        return;
      }
      ok := Append(3 + |right.value|, [' ', op, ' '] + right.value);
      Assoc(b0, Show(q.l, false), [' ', op, ' '] + Show(q.r, false));
    }
  }

  lemma Assoc5(a: string, b: string, c: string, d: string, e: string)
    ensures a + b + c + d + e == a + (b + c + d + e)
  {
  }

  /** Two operands around an operator. */
  function PairText(op: char, q: Query): (s: string)
    requires q.Bin?
    ensures |s| == |Show(q.l, false)| + 3 + |Show(q.r, false)|
  {
    Show(q.l, false) + ([' ', op, ' '] + Show(q.r, false))
  }

  /** What a binary query prints, and reserves, behind `b`. */
  lemma BinBehind(q: Query, first: bool, b: string)
    requires q.Bin?
    ensures var pair := PairText(if q.conj then '&' else '|', q);
      if q.conj || first then b + Show(q, first) == b + pair && Room(q, first, |b|) == PairRoom(q, |b|)
      else b + Show(q, first) == Wrapped(b, pair) && Room(q, first, |b|) == Max(PairRoom(q, |b| + 2), |b| + 4 + |pair|)
  {
    var s := [' ', if q.conj then '&' else '|', ' '];
    assert s == if q.conj then " & " else " | ";
    Assoc(Show(q.l, false), s, Show(q.r, false));
    WrappedText(b, PairText(if q.conj then '&' else '|', q));
  }

  lemma NestedText(b: string, s: string)
    ensures Wrapped(b + "!", s) == b + ("!( " + s + " )")
  {
  }

  /** The operand of a negation behind `b`: in parentheses, unless it is a value. */
  function NegatedText(b: string, q: Query): string {
    if q.Leaf? then b + Show(q, false) else Wrapped(b, Show(q, true))
  }

  function NegatedRoom(q: Query, at: nat): nat {
    if q.Leaf? then Room(q, false, at) else Max(Room(q, true, at + 2), at + 4 + |Show(q, true)|)
  }

  /** What a negation prints behind `b`. */
  lemma NotBehind(q: Query, first: bool, b: string)
    requires q.Not?
    ensures b + Show(q, first) == NegatedText(b + "!", q.q)
  {
    if q.q.Leaf? {
      Assoc(b, "!", Show(q.q, false));
    } else {
      NestedText(b, Show(q.q, true));
    }
  }

  lemma NotRoom(q: Query, first: bool, at: nat)
    requires q.Not?
    ensures at + 1 <= Room(q, first, at) == NegatedRoom(q.q, at + 1)
  {
  }

  lemma WrappedText(b: string, s: string)
    ensures Wrapped(b, s) == b + ("( " + s + " )")
  {
  }

  /** What bqarr_out gives: no text when a buffer would exceed the allocation limit. */
  function Output(q: Query): Option<string> { if Prints(q, true, 0) then Some(Show(q, true)) else None }

  /** Texts of at most 2^29 - 12 characters are always printed, and none of 2^29 - 1 or more. */
  lemma OutputBound(q: Query)
    requires Int32Leaves(q)
    ensures |Show(q, true)| <= TOP_BYTES - 12 ==> Output(q).Some?
    ensures Output(q).Some? ==> |Show(q, true)| < TOP_BYTES - 1
  {
    RoomBound(q, true, 0);
  }

  /** bqarr_out. */
  method BqarrOut(items: seq<Item>, ghost q: Query) returns (text: Option<string>)
    requires |items| == Size(q) && Spells(items, 0, q) && Int32Leaves(q)
    ensures text == Output(q)
  {
    ByteBuffers();
    var nrm := new Infix(items, |items| - 1, 32);
    var ok := nrm.Print(true, 0, q);
    text := if ok then Some(nrm.buf) else None;
    Units(Show(q, true));
  }

  // What the printed text says

  /** `l & r`, with a conjunction on the right regrouped to the left, as reading the text back does. */
  function Attach(l: Expr, r: Expr): Expr {
    if r.Conj? then Conj(Attach(l, r.l), r.r) else Conj(l, r)
  }

  /** The expression that the text `Show(q, first)` writes. */
  function Printed(q: Query, first: bool): Expr {
    match q
    case Leaf(v) => Lit(v)
    case Not(p) => if p.Leaf? then Neg(Lit(p.v)) else Neg(Paren(Printed(p, true)))
    case Bin(true, l, r) => Attach(Printed(l, false), Printed(r, false))
    case Bin(false, l, r) =>
      var e := Disj(Printed(l, false), Printed(r, false));
      if first then e else Paren(e)
  }

  /** Every factor of a term fits on a stack that has one free place. */
  predicate Roomy(t: Expr) {
    if t.Conj? then Roomy(t.l) && Fits(t.r, STACK_DEPTH - 1) else Fits(t, STACK_DEPTH - 1)
  }

  lemma FitsLess(e: Expr, d: nat, d': nat)
    requires Fits(e, d) && d' <= d
    ensures Fits(e, d')
    decreases e
  {
    match e
    case Lit(_) =>
    case Neg(f) => FitsLess(f, d + 1, d' + 1);
    case Paren(_) =>
    case Conj(l, r) => FitsLess(l, d, d'); FitsLess(r, d + 1, d' + 1);
    case Disj(l, r) => FitsLess(l, d, d'); FitsLess(r, d + 1, d' + 1);
  }

  lemma {:induction false} RoomyFits(t: Expr, d: nat)
    requires Roomy(t) && d < STACK_DEPTH - 1
    ensures Fits(t, d)
  {
    if t.Conj? {
      RoomyFits(t.l, d);
      FitsLess(t.r, STACK_DEPTH - 1, d + 1);
    } else {
      FitsLess(t, STACK_DEPTH - 1, d);
    }
  }

  lemma {:induction false} AttachTerm(l: Expr, r: Expr)
    requires IsTerm(l) && IsTerm(r) && Roomy(l) && Roomy(r)
    ensures IsTerm(Attach(l, r)) && Roomy(Attach(l, r)) && !Attach(l, r).Disj?
    ensures Tokens(Attach(l, r)) == Tokens(l) + ([TOpr('&')] + Tokens(r))
    ensures Size(Strip(Attach(l, r))) == Size(Strip(l)) + Size(Strip(r)) + 1
    decreases r
  {
    if r.Conj? {
      AttachTerm(l, r.l);
      var and := [TOpr('&')];
      Assoc(Tokens(l), and + Tokens(r.l), and + Tokens(r.r));
      Assoc(and, Tokens(r.l), and + Tokens(r.r));
    }
  }

  /** The printed expression is well formed and needs little stack. */
  lemma {:induction false} PrintedShape(q: Query)
    ensures IsTerm(Printed(q, false)) && Roomy(Printed(q, false)) && Size(Strip(Printed(q, false))) == Size(q)
    ensures IsExpr(Printed(q, true)) && Fits(Printed(q, true), 0) && Size(Strip(Printed(q, true))) == Size(q)
  {
    match q
    case Leaf(_) =>
    case Not(p) => PrintedShape(p);
    case Bin(conj, l, r) =>
      PrintedShape(l);
      PrintedShape(r);
      if conj {
        AttachTerm(Printed(l, false), Printed(r, false));
        RoomyFits(Printed(q, true), 0);
      } else {
        RoomyFits(Printed(l, false), 0);
        RoomyFits(Printed(r, false), 1);
        assert IsExpr(Printed(l, false));
        assert IsExpr(Printed(q, true));
      }
  }

  lemma {:induction false} AttachMeans(l: Expr, r: Expr, holds: int -> bool)
    ensures Eval(Strip(Attach(l, r)), holds) == (Eval(Strip(l), holds) && Eval(Strip(r), holds))
    decreases r
  {
    if r.Conj? { AttachMeans(l, r.l, holds); }
  }

  /** Regrouping does not change the meaning. */
  lemma {:induction false} PrintedMeans(q: Query, first: bool, holds: int -> bool)
    ensures Eval(Strip(Printed(q, first)), holds) == Eval(q, holds)
    decreases q
  {
    match q
    case Leaf(_) =>
    case Not(p) => PrintedMeans(p, true, holds);
    case Bin(conj, l, r) =>
      PrintedMeans(l, false, holds);
      PrintedMeans(r, false, holds);
      if conj { AttachMeans(Printed(l, false), Printed(r, false), holds); }
  }

  lemma {:induction false} AttachShows(l: Expr, r: Expr, first: bool)
    ensures Show(Strip(Attach(l, r)), first) == Show(Strip(l), false) + " & " + Show(Strip(r), false)
    decreases r
  {
    if r.Conj? {
      AttachShows(l, r.l, false);
      Assoc5(Show(Strip(l), false), " & ", Show(Strip(r.l), false), " & ", Show(Strip(r.r), false));
      Assoc(Show(Strip(l), false), " & ", Show(Strip(r), false));
      Assoc5(" & ", Show(Strip(r.l), false), " & ", Show(Strip(r.r), false), "");
    }
  }

  lemma LeafStaysLeaf(q: Query)
    ensures Strip(Printed(q, true)).Leaf? == q.Leaf?
  {
  }

  /** Regrouping does not change the text either. */
  lemma {:induction false} PrintedShows(q: Query, first: bool)
    ensures Show(Strip(Printed(q, first)), first) == Show(q, first)
    decreases q
  {
    match q
    case Leaf(_) =>
    case Not(p) =>
      PrintedShows(p, true);
      LeafStaysLeaf(p);
    case Bin(conj, l, r) =>
      PrintedShows(l, false);
      PrintedShows(r, false);
      if conj { AttachShows(Printed(l, false), Printed(r, false), first); }
  }

  // Reading the text back, character by character

  /** `s` stands at position `pos` of `buf`. */
  ghost predicate Has(buf: string, pos: nat, s: string) {
    pos + |s| <= |buf| && forall i :: 0 <= i < |s| ==> buf[pos + i] == s[i]
  }

  lemma HasSplit(buf: string, pos: nat, s: string, t: string)
    requires Has(buf, pos, s + t)
    ensures Has(buf, pos, s) && Has(buf, pos + |s|, t)
  {
    forall i | 0 <= i < |s| ensures buf[pos + i] == s[i] { assert (s + t)[i] == s[i]; }
    forall i | 0 <= i < |t| ensures buf[pos + |s| + i] == t[i] { assert (s + t)[|s| + i] == t[i]; }
  }

  /** What may follow an operand. */
  predicate EndOk(buf: string, pos: nat, count: int) {
    !IsDigit(Cur(buf, pos)) && (count != 0 ==> Cur(buf, pos) != '\0')
  }

  lemma {:induction false} DigitsAreDigits(n: nat)
    ensures |Digits(n)| > 0 && forall i :: 0 <= i < |Digits(n)| ==> IsDigit(Digits(n)[i])
    ensures n > 0 ==> Digits(n)[0] != '0'
  {
    if n >= 10 { DigitsAreDigits(n / 10); }
  }

  lemma {:induction false} ReadDigitsSnoc(s: string, c: char, acc: nat)
    requires IsDigit(c) && forall i :: 0 <= i < |s| ==> IsDigit(s[i])
    ensures ReadDigits(s + [c], 10, acc) == ReadDigits(s, 10, acc) * 10 + DigitVal(c)
    decreases |s|
  {
    if s == "" {
      assert s + [c] == [c];
      assert [c][1..] == "";
    } else {
      assert (s + [c])[1..] == s[1..] + [c];
      ReadDigitsSnoc(s[1..], c, acc * 10 + DigitVal(s[0]));
    }
  }

  lemma {:induction false} ReadDigitsBack(n: nat)
    ensures ReadDigits(Digits(n), 10, 0) == n
  {
    if n >= 10 {
      ReadDigitsBack(n / 10);
      DigitsAreDigits(n / 10);
      ReadDigitsSnoc(Digits(n / 10), ('0' as int + n % 10) as char, 0);
    } else {
      assert Digits(n)[1..] == "";
    }
  }

  /** strtol undoes %d. */
  lemma StrToLBack(v: int)
    ensures StrToL(Decimal(v)) == v
  {
    var n := if v < 0 then -v else v;
    DigitsAreDigits(n);
    ReadDigitsBack(n);
    if v < 0 {
      assert Decimal(v)[1..] == Digits(n);
    } else if v == 0 {
      assert Decimal(v) == ['0'] && ['0'][1..] == "";
      assert ReadDigits(['0'], 8, 0) == ReadDigits("", 8, 0);
    }
  }

  lemma {:induction false} DigitsEndAt(buf: string, pos: nat, e: nat)
    requires pos <= e <= |buf| && (forall i :: pos <= i < e ==> IsDigit(buf[i])) && !IsDigit(Cur(buf, e))
    ensures DigitsEnd(buf, pos) == e
    decreases e - pos
  {
    if pos < e { DigitsEndAt(buf, pos + 1, e); }
  }

  lemma NumberReads(buf: string, pos: nat, count: int, v: int)
    requires INT32_MIN <= v <= INT32_MAX && Has(buf, pos, Decimal(v)) && EndOk(buf, pos + |Decimal(v)|, count)
    ensures Reads(buf, Place(pos, WaitOperand, count), [TVal(v)], Place(pos + |Decimal(v)|, WaitOperator, count))
  {
    var e := pos + |Decimal(v)|;
    DecimalLength(v);
    DigitsAreDigits(if v < 0 then -v else v);
    StrToLBack(v);
    assert buf[pos] == Decimal(v)[0];
    forall i | pos + 1 <= i < e ensures IsDigit(buf[i]) { assert buf[pos + (i - pos)] == Decimal(v)[i - pos]; }
    DigitsEndAt(buf, pos + 1, e);
    assert buf[pos..e] == Decimal(v);
    assert [TVal(v)][1..] == [];
  }

  /** A blank before a token does not matter. */
  lemma SkipBlank(buf: string, pos: nat, state: Wait, count: int, toks: seq<Token>, b: Place)
    requires pos < |buf| && buf[pos] == ' ' && toks != [] && Reads(buf, Place(pos + 1, state, count), toks, b)
    ensures Reads(buf, Place(pos, state, count), toks, b)
  {
    assert SkipSpaces(buf, pos) == SkipSpaces(buf, pos + 1);
  }

  /** A one-character token. */
  lemma MarkReads(buf: string, pos: nat, state: Wait, count: int, tok: Token, b: Place)
    requires pos < |buf| && b.pos == pos + 1
    requires match tok
             case TOpr(op) => buf[pos] == op && b.state == WaitOperand && b.count == count &&
                              if op == '!' then state == WaitOperand else state == WaitOperator && (op == '&' || op == '|')
             case TOpen => buf[pos] == '(' && state == WaitOperand && b.state == WaitOperand && b.count == count + 1
             case TClose => buf[pos] == ')' && state == WaitOperator && b.state == WaitOperator && b.count == count - 1 >= 0
             case _ => false
    ensures Reads(buf, Place(pos, state, count), [tok], b)
  {
    assert [tok][1..] == [];
  }

  /** `" op "` between two operands. */
  lemma OperatorReads(buf: string, pos: nat, count: int, op: char)
    requires (op == '&' || op == '|') && Has(buf, pos, [' ', op, ' '])
    ensures Reads(buf, Place(pos, WaitOperator, count), [TOpr(op)], Place(pos + 2, WaitOperand, count))
    ensures buf[pos] == buf[pos + 2] == ' '
  {
    var s := [' ', op, ' '];
    assert buf[pos + 0] == s[0] && buf[pos + 1] == s[1] && buf[pos + 2] == s[2];
    MarkReads(buf, pos + 1, WaitOperator, count, TOpr(op), Place(pos + 2, WaitOperand, count));
    SkipBlank(buf, pos, WaitOperator, count, [TOpr(op)], Place(pos + 2, WaitOperand, count));
  }

  /** `"( "` before an operand. */
  lemma OpenReads(buf: string, pos: nat, count: int, toks: seq<Token>, b: Place)
    requires toks != [] && Has(buf, pos, "( ") && Reads(buf, Place(pos + 2, WaitOperand, count + 1), toks, b)
    ensures Reads(buf, Place(pos, WaitOperand, count), [TOpen] + toks, b)
  {
    assert buf[pos + 0] == "( "[0] && buf[pos + 1] == "( "[1];
    MarkReads(buf, pos, WaitOperand, count, TOpen, Place(pos + 1, WaitOperand, count + 1));
    SkipBlank(buf, pos + 1, WaitOperand, count + 1, toks, b);
    ReadsJoin(buf, Place(pos, WaitOperand, count), [TOpen], Place(pos + 1, WaitOperand, count + 1), toks, b);
  }

  /** `" )"` after an operand. */
  lemma CloseReads(buf: string, pos: nat, count: int)
    requires count >= 0 && Has(buf, pos, " )")
    ensures Reads(buf, Place(pos, WaitOperator, count + 1), [TClose], Place(pos + 2, WaitOperator, count))
  {
    assert buf[pos + 0] == " )"[0] && buf[pos + 1] == " )"[1];
    MarkReads(buf, pos + 1, WaitOperator, count + 1, TClose, Place(pos + 2, WaitOperator, count));
    SkipBlank(buf, pos, WaitOperator, count + 1, [TClose], Place(pos + 2, WaitOperator, count));
  }

  /** Inside parentheses: `"( " + s + " )"` reads as the tokens of `s` between parentheses. */
  lemma ParenReads(buf: string, pos: nat, count: int, n: nat, toks: seq<Token>)
    requires count >= 0 && toks != [] && Has(buf, pos, "( ") && Has(buf, pos + 2 + n, " )")
    requires Reads(buf, Place(pos + 2, WaitOperand, count + 1), toks, Place(pos + 2 + n, WaitOperator, count + 1))
    ensures Reads(buf, Place(pos, WaitOperand, count), [TOpen] + (toks + [TClose]),
                  Place(pos + n + 4, WaitOperator, count))
  {
    CloseReads(buf, pos + 2 + n, count);
    ReadsJoin(buf, Place(pos + 2, WaitOperand, count + 1), toks, Place(pos + 2 + n, WaitOperator, count + 1),
              [TClose], Place(pos + n + 4, WaitOperator, count));
    OpenReads(buf, pos, count, toks + [TClose], Place(pos + n + 4, WaitOperator, count));
  }

  /** An operator and the operand behind it. */
  lemma BehindReads(buf: string, pos: nat, count: int, op: char, toks: seq<Token>, b: Place)
    requires (op == '&' || op == '|') && toks != [] && Has(buf, pos, [' ', op, ' '])
    requires Reads(buf, Place(pos + 3, WaitOperand, count), toks, b)
    ensures Reads(buf, Place(pos, WaitOperator, count), [TOpr(op)] + toks, b)
  {
    OperatorReads(buf, pos, count, op);
    SkipBlank(buf, pos + 2, WaitOperand, count, toks, b);
    ReadsJoin(buf, Place(pos, WaitOperator, count), [TOpr(op)], Place(pos + 2, WaitOperand, count), toks, b);
  }

  /** Two operands around an operator. */
  lemma PairReads(buf: string, a: Place, b: Place, c: Place, op: char, t1: seq<Token>, t2: seq<Token>)
    requires (op == '&' || op == '|') && t2 != [] && b.state == WaitOperator && Has(buf, b.pos, [' ', op, ' '])
    requires Reads(buf, a, t1, b) && Reads(buf, Place(b.pos + 3, WaitOperand, b.count), t2, c)
    ensures Reads(buf, a, t1 + ([TOpr(op)] + t2), c)
  {
    BehindReads(buf, b.pos, b.count, op, t2, c);
    ReadsJoin(buf, a, t1, b, [TOpr(op)] + t2, c);
  }

  lemma TokensNonEmpty(e: Expr)
    ensures Tokens(e) != []
  {
  }

  lemma BangReads(buf: string, pos: nat, count: int, toks: seq<Token>, b: Place)
    requires Has(buf, pos, "!") && Reads(buf, Place(pos + 1, WaitOperand, count), toks, b)
    ensures Reads(buf, Place(pos, WaitOperand, count), [TOpr('!')] + toks, b)
  {
    assert buf[pos + 0] == "!"[0];
    MarkReads(buf, pos, WaitOperand, count, TOpr('!'), Place(pos + 1, WaitOperand, count));
    ReadsJoin(buf, Place(pos, WaitOperand, count), [TOpr('!')], Place(pos + 1, WaitOperand, count), toks, b);
  }

  lemma HasThree(buf: string, pos: nat, s: string, t: string, u: string)
    requires Has(buf, pos, s + t + u)
    ensures Has(buf, pos, s) && Has(buf, pos + |s|, t) && Has(buf, pos + |s| + |t|, u)
  {
    HasSplit(buf, pos, s + t, u);
    HasSplit(buf, pos, s, t);
  }

  /** What stands before a blank may end there. */
  lemma BlankEnds(buf: string, pos: nat, s: string, count: int)
    requires Has(buf, pos, s) && s != "" && s[0] == ' '
    ensures EndOk(buf, pos, count)
  {
    assert buf[pos + 0] == s[0];
  }

  /** `toks` are the tokens of the text `s` at `pos`. */
  ghost predicate Spans(buf: string, pos: nat, count: int, s: string, toks: seq<Token>) {
    Reads(buf, Place(pos, WaitOperand, count), toks, Place(pos + |s|, WaitOperator, count))
  }

  lemma ParenSpans(buf: string, pos: nat, count: int, s: string, toks: seq<Token>)
    requires count >= 0 && toks != [] && Has(buf, pos, "( " + s + " )") && Spans(buf, pos + 2, count + 1, s, toks)
    ensures Spans(buf, pos, count, "( " + s + " )", [TOpen] + (toks + [TClose]))
  {
    HasThree(buf, pos, "( ", s, " )");
    ParenReads(buf, pos, count, |s|, toks);
  }

  lemma PairSpans(buf: string, pos: nat, count: int, op: char, s: string, t: string, whole: string,
                  t1: seq<Token>, t2: seq<Token>)
    requires (op == '&' || op == '|') && t2 != [] && Has(buf, pos + |s|, [' ', op, ' ']) && |whole| == |s| + 3 + |t|
    requires Spans(buf, pos, count, s, t1) && Spans(buf, pos + |s| + 3, count, t, t2)
    ensures Spans(buf, pos, count, whole, t1 + ([TOpr(op)] + t2))
  {
    PairReads(buf, Place(pos, WaitOperand, count), Place(pos + |s|, WaitOperator, count),
              Place(pos + |whole|, WaitOperator, count), op, t1, t2);
  }

  /** The places of the parts of `s op t`, and that each operand may end where it does. */
  lemma PairParts(buf: string, pos: nat, count: int, s: string, m: string, t: string)
    requires Has(buf, pos, s + m + t) && m != "" && m[0] == ' ' && EndOk(buf, pos + |s + m + t|, count)
    ensures |s + m + t| == |s| + |m| + |t|
    ensures Has(buf, pos, s) && Has(buf, pos + |s|, m) && Has(buf, pos + |s| + |m|, t)
    ensures EndOk(buf, pos + |s|, count) && EndOk(buf, pos + |s| + |m| + |t|, count)
  {
    HasThree(buf, pos, s, m, t);
    BlankEnds(buf, pos + |s|, m, count);
  }

  /** The tokens of a printed text are those of the expression it writes. */
  lemma {:induction false} ShowReads(buf: string, pos: nat, count: int, q: Query, first: bool)
    requires Int32Leaves(q) && count >= 0 && Has(buf, pos, Show(q, first)) && EndOk(buf, pos + |Show(q, first)|, count)
    ensures Spans(buf, pos, count, Show(q, first), Tokens(Printed(q, first)))
    decreases q, if first then 2 else 4
  {
    match q
    case Leaf(v) => NumberReads(buf, pos, count, v);
    case Not(p) => NotReads(buf, pos, count, q, first);
    case Bin(conj, l, r) =>
      if conj {
        ConjReads(buf, pos, count, q, first);
      } else if first {
        DisjReads(buf, pos, count, q);
      } else {
        GroupReads(buf, pos, count, q);
      }
  }

  lemma ShowNot(q: Query, first: bool)
    requires q.Not? && !q.q.Leaf?
    ensures Show(q, first) == "!" + ("( " + Show(q.q, true) + " )")
  {
    assert "!( " == "!" + "( ";
    Assoc("!", "( ", Show(q.q, true));
    Assoc("!", "( " + Show(q.q, true), " )");
  }

  lemma {:induction false} NotReads(buf: string, pos: nat, count: int, q: Query, first: bool)
    requires q.Not? && Int32Leaves(q) && count >= 0 && Has(buf, pos, Show(q, first))
    requires EndOk(buf, pos + |Show(q, first)|, count)
    ensures Spans(buf, pos, count, Show(q, first), Tokens(Printed(q, first)))
    decreases q, 1
  {
    if q.q.Leaf? {
      BangSpans(buf, pos, count, Decimal(q.q.v), [TVal(q.q.v)]) by {
        HasSplit(buf, pos, "!", Decimal(q.q.v));
        NumberReads(buf, pos + 1, count, q.q.v);
      }
    } else {
      ShowNot(q, first);
      var s := "( " + Show(q.q, true) + " )";
      BangSpans(buf, pos, count, s, Tokens(Paren(Printed(q.q, true)))) by {
        HasSplit(buf, pos, "!", s);
        GroupReads(buf, pos + 1, count, q.q);
      }
    }
  }

  lemma BangSpans(buf: string, pos: nat, count: int, s: string, toks: seq<Token>)
    requires Has(buf, pos, "!" + s) && Spans(buf, pos + 1, count, s, toks)
    ensures Spans(buf, pos, count, "!" + s, [TOpr('!')] + toks)
  {
    HasSplit(buf, pos, "!", s);
    BangReads(buf, pos, count, toks, Place(pos + 1 + |s|, WaitOperator, count));
  }

  lemma {:induction false} GroupReads(buf: string, pos: nat, count: int, p: Query)
    requires Int32Leaves(p) && count >= 0 && Has(buf, pos, "( " + Show(p, true) + " )")
    ensures Spans(buf, pos, count, "( " + Show(p, true) + " )", Tokens(Paren(Printed(p, true))))
    decreases p, 3
  {
    var s := Show(p, true);
    HasThree(buf, pos, "( ", s, " )");
    BlankEnds(buf, pos + 2 + |s|, " )", count + 1);
    ShowReads(buf, pos + 2, count + 1, p, true);
    TokensNonEmpty(Printed(p, true));
    ParenSpans(buf, pos, count, s, Tokens(Printed(p, true)));
  }

  /** Two printed operands around an operator. */
  lemma {:induction false} OperandsRead(buf: string, pos: nat, count: int, op: char, l: Query, r: Query)
    requires (op == '&' || op == '|') && Int32Leaves(l) && Int32Leaves(r) && count >= 0
    requires var s := Show(l, false) + [' ', op, ' '] + Show(r, false);
      Has(buf, pos, s) && EndOk(buf, pos + |s|, count)
    ensures Spans(buf, pos, count, Show(l, false) + [' ', op, ' '] + Show(r, false),
                  Tokens(Printed(l, false)) + ([TOpr(op)] + Tokens(Printed(r, false))))
    decreases Bin(op == '&', l, r), 0
  {
    var s, m, t := Show(l, false), [' ', op, ' '], Show(r, false);
    var t1, t2 := Tokens(Printed(l, false)), Tokens(Printed(r, false));
    PairParts(buf, pos, count, s, m, t);
    assert Spans(buf, pos, count, s, t1) by { ShowReads(buf, pos, count, l, false); }
    assert Spans(buf, pos + |s| + 3, count, t, t2) by { ShowReads(buf, pos + |s| + 3, count, r, false); }
    assert t2 != [] by { TokensNonEmpty(Printed(r, false)); }
    PairSpans(buf, pos, count, op, s, t, s + m + t, t1, t2);
  }

  lemma {:induction false} ConjReads(buf: string, pos: nat, count: int, q: Query, first: bool)
    requires q.Bin? && q.conj && Int32Leaves(q) && count >= 0
    requires Has(buf, pos, Show(q, first)) && EndOk(buf, pos + |Show(q, first)|, count)
    ensures Spans(buf, pos, count, Show(q, first), Tokens(Printed(q, first)))
    decreases q, 1
  {
    assert " & " == [' ', '&', ' '];
    OperandsRead(buf, pos, count, '&', q.l, q.r);
    PrintedShape(q.l);
    PrintedShape(q.r);
    AttachTerm(Printed(q.l, false), Printed(q.r, false));
  }

  lemma {:induction false} DisjReads(buf: string, pos: nat, count: int, q: Query)
    requires q.Bin? && !q.conj && Int32Leaves(q) && count >= 0
    requires Has(buf, pos, Show(q, true)) && EndOk(buf, pos + |Show(q, true)|, count)
    ensures Spans(buf, pos, count, Show(q, true), Tokens(Printed(q, true)))
    decreases q, 1
  {
    assert " | " == [' ', '|', ' '];
    OperandsRead(buf, pos, count, '|', q.l, q.r);
  }

  lemma PrintedIsWritten(q: Query)
    requires Int32Leaves(q)
    ensures Writes(Show(q, true), Printed(q, true))
  {
    var text := Show(q, true);
    PrintedShape(q);
    ShowReads(text, 0, 0, q, true);
    assert TokenAt(text, Place(|text|, WaitOperator, 0)).tok == TEnd;
  }
}
