/**
 What query_int texts mean: a reference grammar with `!` over `&` over `|`, both binary operators
 to the left, and the proof that makepol accepts exactly the texts of that grammar (up to the
 depth of its operator stack) and emits their postfix form.
 */
module IntQueryGrammar {
  import opened IntQuerySyntax
  import opened Sequences
  import opened Wrappers

  datatype Expr = Lit(v: int) | Neg(e: Expr) | Paren(e: Expr) | Conj(l: Expr, r: Expr) | Disj(l: Expr, r: Expr)

  predicate IsFactor(e: Expr)
    decreases e, 0
  {
    match e
    case Lit(_) => true
    case Neg(f) => IsFactor(f)
    case Paren(x) => IsExpr(x)
    case _ => false
  }

  predicate IsTerm(e: Expr)
    decreases e, 1
  {
    if e.Conj? then IsTerm(e.l) && IsFactor(e.r) else IsFactor(e)
  }

  predicate IsExpr(e: Expr)
    decreases e, 2
  {
    if e.Disj? then IsExpr(e.l) && IsTerm(e.r) else IsTerm(e)
  }

  /** The tokens an expression is written with. */
  function Tokens(e: Expr): seq<Token> {
    match e
    case Lit(v) => [TVal(v)]
    case Neg(f) => [TOpr('!')] + Tokens(f)
    case Paren(x) => [TOpen] + (Tokens(x) + [TClose])
    case Conj(l, r) => Tokens(l) + ([TOpr('&')] + Tokens(r))
    case Disj(l, r) => Tokens(l) + ([TOpr('|')] + Tokens(r))
  }

  function Postfix(e: Expr): seq<Node> {
    match e
    case Lit(v) => [Num(v)]
    case Neg(f) => Postfix(f) + [Op('!')]
    case Paren(x) => Postfix(x)
    case Conj(l, r) => Postfix(l) + Postfix(r) + [Op('&')]
    case Disj(l, r) => Postfix(l) + Postfix(r) + [Op('|')]
  }

  /** The operator stack, with `depth` operators already on it, never needs a 17th place. */
  predicate Fits(e: Expr, depth: nat) {
    match e
    case Lit(_) => true
    case Neg(f) => depth < STACK_DEPTH && Fits(f, depth + 1)
    case Paren(x) => Fits(x, 0)
    case Conj(l, r) => Fits(l, depth) && Fits(r, depth + 1)
    case Disj(l, r) => Fits(l, depth) && Fits(r, depth + 1)
  }

  /** A position of the tokenizer. */
  datatype Place = Place(pos: nat, state: Wait, count: int)

  function TokenAt(buf: string, a: Place): (r: Lexed)
    requires a.pos <= |buf|
    ensures r.pos <= |buf|
  {
    NextToken(buf, a.pos, a.state, a.count)
  }

  function After(t: Lexed): Place { Place(t.pos, t.state, t.count) }

  /** Reading from `a` yields exactly the tokens `toks`, none of them the end, and stops at `b`. */
  predicate Reads(buf: string, a: Place, toks: seq<Token>, b: Place)
    decreases |toks|
  {
    a.pos <= |buf| &&
    if toks == [] then a == b
    else
      var t := TokenAt(buf, a);
      t.tok == toks[0] && t.tok != TErr && t.tok != TEnd && Reads(buf, After(t), toks[1..], b)
  }

  lemma {:induction false} ReadsSplit(buf: string, a: Place, t1: seq<Token>, t2: seq<Token>, c: Place)
    returns (b: Place)
    requires Reads(buf, a, t1 + t2, c)
    ensures Reads(buf, a, t1, b) && Reads(buf, b, t2, c)
    decreases |t1|
  {
    if t1 == [] {
      assert t1 + t2 == t2;
      b := a;
    } else {
      JoinTail(t1, t2);
      b := ReadsSplit(buf, After(TokenAt(buf, a)), t1[1..], t2, c);
    }
  }

  lemma ReadsCons(buf: string, a: Place, toks: seq<Token>, b: Place)
    requires a.pos <= |buf| && TokenAt(buf, a).tok != TErr && TokenAt(buf, a).tok != TEnd
    requires Reads(buf, After(TokenAt(buf, a)), toks, b)
    ensures Reads(buf, a, [TokenAt(buf, a).tok] + toks, b)
  {
    assert ([TokenAt(buf, a).tok] + toks)[1..] == toks;
  }

  lemma {:induction false} ReadsJoin(buf: string, a: Place, t1: seq<Token>, b: Place, t2: seq<Token>, c: Place)
    requires Reads(buf, a, t1, b) && Reads(buf, b, t2, c)
    ensures Reads(buf, a, t1 + t2, c)
    decreases |t1|
  {
    if t1 == [] {
      assert t1 + t2 == t2;
    } else {
      JoinTail(t1, t2);
      ReadsJoin(buf, After(TokenAt(buf, a)), t1[1..], b, t2, c);
    }
  }

  lemma ReadsOne(buf: string, a: Place, tok: Token, b: Place)
    requires Reads(buf, a, [tok], b)
    ensures TokenAt(buf, a).tok == tok && After(TokenAt(buf, a)) == b && b.pos <= |buf|
  {
    assert [tok][1..] == [];
  }

  function PolAt(buf: string, a: Place, stack: seq<char>, out: seq<Node>): Parsed
    requires a.pos <= |buf|
  {
    MakePol(buf, a.pos, a.state, a.count, stack, out)
  }

  lemma LooseStep(stack: seq<char>, op: char)
    requires Tight(op)
    ensures Loose(stack + [op]) == Loose(stack) && TightOps(stack + [op]) == [Op(op)] + TightOps(stack)
  {
    assert (stack + [op])[..|stack|] == stack;
  }

  // Completeness: makepol follows the grammar.

  lemma {:induction false} FactorParse(buf: string, a: Place, f: Expr, b: Place, stack: seq<char>, out: seq<Node>)
    requires IsFactor(f) && Fits(f, |stack|) && Reads(buf, a, Tokens(f), b)
    ensures b.pos <= |buf|
    ensures PolAt(buf, a, stack, out) == PolAt(buf, b, Loose(stack), out + Postfix(f) + TightOps(stack))
    decreases f, 0
  {
    match f
    case Lit(v) =>
      ReadsOne(buf, a, TVal(v), b);
    case Neg(g) =>
      var a1 := ReadsSplit(buf, a, [TOpr('!')], Tokens(g), b);
      ReadsOne(buf, a, TOpr('!'), a1);
      FactorParse(buf, a1, g, b, stack + ['!'], out);
      LooseStep(stack, '!');
      Assoc(out + Postfix(g), [Op('!')], TightOps(stack));
      Assoc(out, Postfix(g), [Op('!')]);
    case Paren(x) =>
      var a1 := ReadsSplit(buf, a, [TOpen], Tokens(x) + [TClose], b);
      ReadsOne(buf, a, TOpen, a1);
      var b1 := ReadsSplit(buf, a1, Tokens(x), [TClose], b);
      ReadsOne(buf, b1, TClose, b);
      ExprParse(buf, a1, x, b1, out);
      assert PolAt(buf, a1, [], out) == Parsed(b.pos, b.state, b.count, out + Postfix(x)) by {
        PendingOps(x, out);
      }
  }

  lemma PushStep(buf: string, a: Place, op: char, b: Place, stack: seq<char>, out: seq<Node>)
    requires Reads(buf, a, [TOpr(op)], b) && |stack| < STACK_DEPTH && (stack == [] || op != '|')
    ensures b.pos <= |buf| && PolAt(buf, a, stack, out) == PolAt(buf, b, stack + [op], out)
  {
    ReadsOne(buf, a, TOpr(op), b);
  }

  lemma OrStep(buf: string, a: Place, b: Place, stack: seq<char>, out: seq<Node>)
    requires Reads(buf, a, [TOpr('|')], b) && stack != []
    ensures b.pos <= |buf| && PolAt(buf, a, stack, out) == PolAt(buf, b, stack, out + [Op('|')])
  {
    ReadsOne(buf, a, TOpr('|'), b);
  }

  lemma ConjParse(buf: string, a: Place, f: Expr, b: Place, stack: seq<char>, out: seq<Node>)
    requires IsFactor(f) && Fits(f, |stack| + 1) && Reads(buf, a, Tokens(f), b)
    requires stack == [] || stack == ['|']
    ensures b.pos <= |buf|
    ensures PolAt(buf, a, stack + ['&'], out) == PolAt(buf, b, stack, out + (Postfix(f) + [Op('&')]))
    decreases f, 1
  {
    FactorParse(buf, a, f, b, stack + ['&'], out);
    LooseStep(stack, '&');
    Units([Op('&')]);
    Assoc(out, Postfix(f), [Op('&')]);
  }

  lemma {:induction false} TermParse(buf: string, a: Place, t: Expr, b: Place, stack: seq<char>, out: seq<Node>)
    requires IsTerm(t) && Fits(t, |stack|) && Reads(buf, a, Tokens(t), b)
    requires stack == [] || stack == ['|']
    ensures b.pos <= |buf|
    ensures PolAt(buf, a, stack, out) == PolAt(buf, b, stack, out + Postfix(t))
    decreases t, 1
  {
    if t.Conj? {
      var a1 := ReadsSplit(buf, a, Tokens(t.l), [TOpr('&')] + Tokens(t.r), b);
      TermParse(buf, a, t.l, a1, stack, out);
      var a2 := ReadsSplit(buf, a1, [TOpr('&')], Tokens(t.r), b);
      PushStep(buf, a1, '&', a2, stack, out + Postfix(t.l));
      ConjParse(buf, a2, t.r, b, stack, out + Postfix(t.l));
      Assoc(out, Postfix(t.l), Postfix(t.r) + [Op('&')]);
      Assoc(Postfix(t.l), Postfix(t.r), [Op('&')]);
    } else {
      FactorParse(buf, a, t, b, stack, out);
      Units(out + Postfix(t));
    }
  }

  /** The outermost `|` of an expression stays on the stack until the expression ends. */
  function PendingStack(e: Expr): seq<char> { if e.Disj? then ['|'] else [] }

  function PendingOut(e: Expr): seq<Node> { if e.Disj? then Postfix(e.l) + Postfix(e.r) else Postfix(e) }

  lemma PendingOps(e: Expr, out: seq<Node>)
    ensures out + PendingOut(e) + AllOps(PendingStack(e)) == out + Postfix(e)
  {
    PopOr();
    if e.Disj? { Assoc(out, PendingOut(e), [Op('|')]); } else { Units(out + Postfix(e)); }
  }

  lemma PopOr()
    ensures AllOps(['|']) == [Op('|')]
  {
    assert ['|'][..0] == [];
    Units([Op('|')]);
  }

  lemma OrParse(buf: string, a: Place, l: Expr, b: Place, out: seq<Node>)
    requires Reads(buf, a, [TOpr('|')], b)
    ensures b.pos <= |buf|
    ensures PolAt(buf, a, PendingStack(l), out + PendingOut(l)) == PolAt(buf, b, ['|'], out + Postfix(l))
  {
    if l.Disj? {
      OrStep(buf, a, b, ['|'], out + PendingOut(l));
      Assoc(out, PendingOut(l), [Op('|')]);
    } else {
      PushStep(buf, a, '|', b, [], out + Postfix(l));
      Units(['|']);
    }
  }

  lemma {:induction false} ExprParse(buf: string, a: Place, e: Expr, b: Place, out: seq<Node>)
    requires IsExpr(e) && Fits(e, 0) && Reads(buf, a, Tokens(e), b)
    ensures b.pos <= |buf|
    ensures PolAt(buf, a, [], out) == PolAt(buf, b, PendingStack(e), out + PendingOut(e))
    decreases e, 2
  {
    if e.Disj? {
      var a1 := ReadsSplit(buf, a, Tokens(e.l), [TOpr('|')] + Tokens(e.r), b);
      ExprParse(buf, a, e.l, a1, out);
      var a2 := ReadsSplit(buf, a1, [TOpr('|')], Tokens(e.r), b);
      OrParse(buf, a1, e.l, a2, out);
      TermParse(buf, a2, e.r, b, ['|'], out + Postfix(e.l));
      Assoc(out, Postfix(e.l), Postfix(e.r));
    } else {
      TermParse(buf, a, e, b, [], out);
    }
  }

  // Soundness: whatever makepol accepts is in the grammar.

  /** What has been read of an expression while an operand is awaited: `disj | conj & !...!`. */
  datatype Context = Context(disj: Option<Expr>, conj: Option<Expr>, negs: nat)

  const EMPTY: Context := Context(None, None, 0)

  function Base(d: Option<Expr>): nat { if d.Some? then 1 else 0 }

  predicate DisjOk(d: Option<Expr>) { d.Some? ==> IsExpr(d.value) && Fits(d.value, 0) }

  predicate ContextOk(c: Context) {
    && DisjOk(c.disj)
    && (c.conj.Some? ==> IsTerm(c.conj.value) && Fits(c.conj.value, Base(c.disj)))
    && Base(c.disj) + Base(c.conj) + c.negs <= STACK_DEPTH
  }

  function Bangs(n: nat): seq<char> { if n == 0 then [] else Bangs(n - 1) + ['!'] }

  function BangNodes(n: nat): seq<Node> { if n == 0 then [] else BangNodes(n - 1) + [Op('!')] }

  function BangTokens(n: nat): seq<Token> { if n == 0 then [] else BangTokens(n - 1) + [TOpr('!')] }

  function Negate(n: nat, f: Expr): Expr { if n == 0 then f else Negate(n - 1, Neg(f)) }

  function DisjStack(d: Option<Expr>): seq<char> { if d.Some? then ['|'] else [] }

  function DisjOut(d: Option<Expr>): seq<Node> { if d.Some? then Postfix(d.value) else [] }

  function DisjTokens(d: Option<Expr>): seq<Token> { if d.Some? then Tokens(d.value) + [TOpr('|')] else [] }

  function WithTerm(d: Option<Expr>, t: Expr): Expr { if d.Some? then Disj(d.value, t) else t }

  function ConjTokens(c: Option<Expr>): seq<Token> { if c.Some? then Tokens(c.value) + [TOpr('&')] else [] }

  function WithFactor(c: Option<Expr>, f: Expr): Expr { if c.Some? then Conj(c.value, f) else f }

  function StackOf(c: Context): seq<char> {
    DisjStack(c.disj) + (if c.conj.Some? then ['&'] else []) + Bangs(c.negs)
  }

  function OutOf(c: Context, out: seq<Node>): seq<Node> {
    out + DisjOut(c.disj) + (if c.conj.Some? then Postfix(c.conj.value) else [])
  }

  function TokensOf(c: Context): seq<Token> {
    DisjTokens(c.disj) + ConjTokens(c.conj) + BangTokens(c.negs)
  }

  lemma BangsSplit(stack: seq<char>, n: nat)
    requires n > 0
    ensures stack + Bangs(n) == (stack + Bangs(n - 1)) + ['!']
  {
    Assoc(stack, Bangs(n - 1), ['!']);
  }

  lemma {:induction false} PopBangs(stack: seq<char>, n: nat)
    ensures Loose(stack + Bangs(n)) == Loose(stack)
    ensures TightOps(stack + Bangs(n)) == BangNodes(n) + TightOps(stack)
  {
    if n == 0 {
      assert stack + Bangs(0) == stack;
    } else {
      calc {
        Loose(stack + Bangs(n));
        { BangsSplit(stack, n); }
        Loose((stack + Bangs(n - 1)) + ['!']);
        { LooseStep(stack + Bangs(n - 1), '!'); }
        Loose(stack + Bangs(n - 1));
        { PopBangs(stack, n - 1); }
        Loose(stack);
      }
      calc {
        TightOps(stack + Bangs(n));
        { BangsSplit(stack, n); LooseStep(stack + Bangs(n - 1), '!'); }
        [Op('!')] + TightOps(stack + Bangs(n - 1));
        { PopBangs(stack, n - 1); }
        [Op('!')] + (BangNodes(n - 1) + TightOps(stack));
        { BangNodesFront(n); Assoc([Op('!')], BangNodes(n - 1), TightOps(stack)); }
        BangNodes(n) + TightOps(stack);
      }
    }
  }

  lemma {:induction false} BangNodesFront(n: nat)
    requires n > 0
    ensures BangNodes(n) == [Op('!')] + BangNodes(n - 1)
  {
    if n > 1 { BangNodesFront(n - 1); }
  }

  lemma PopConj(d: Option<Expr>, conj: bool)
    ensures var stack := DisjStack(d) + if conj then ['&'] else [];
      Loose(stack) == DisjStack(d) && TightOps(stack) == if conj then [Op('&')] else []
  {
    if conj { LooseStep(DisjStack(d), '&'); } else { assert DisjStack(d) + [] == DisjStack(d); }
    assert Loose(DisjStack(d)) == DisjStack(d) && TightOps(DisjStack(d)) == [];
  }

  lemma PopContext(c: Context)
    ensures Loose(StackOf(c)) == DisjStack(c.disj)
    ensures TightOps(StackOf(c)) == BangNodes(c.negs) + if c.conj.Some? then [Op('&')] else []
  {
    PopConj(c.disj, c.conj.Some?);
    PopBangs(DisjStack(c.disj) + (if c.conj.Some? then ['&'] else []), c.negs);
  }

  lemma {:induction false} NegateMeans(n: nat, f: Expr, depth: nat)
    requires IsFactor(f)
    ensures IsFactor(Negate(n, f))
    ensures Tokens(Negate(n, f)) == BangTokens(n) + Tokens(f) && Postfix(Negate(n, f)) == Postfix(f) + BangNodes(n)
    ensures depth + n <= STACK_DEPTH && Fits(f, depth + n) ==> Fits(Negate(n, f), depth)
    decreases n
  {
    if n > 0 {
      NegateMeans(n - 1, Neg(f), depth);
      BangNodesFront(n);
      assert BangTokens(n - 1) + Tokens(Neg(f)) == BangTokens(n) + Tokens(f);
      assert Postfix(Neg(f)) + BangNodes(n - 1) == Postfix(f) + ([Op('!')] + BangNodes(n - 1));
    }
  }

  function TermOf(c: Context, f: Expr): Expr { WithFactor(c.conj, Negate(c.negs, f)) }

  /** A finished factor, with what was pending in front of it, makes a term. */
  lemma CloseFactor(c: Context, f: Expr)
    requires ContextOk(c) && IsFactor(f) && Fits(f, Base(c.disj) + Base(c.conj) + c.negs)
    ensures IsTerm(TermOf(c, f)) && Fits(TermOf(c, f), Base(c.disj))
  {
    NegateMeans(c.negs, f, Base(c.disj) + Base(c.conj));
  }

  lemma CloseTokens(c: Context, f: Expr)
    requires IsFactor(f)
    ensures DisjTokens(c.disj) + Tokens(TermOf(c, f)) == TokensOf(c) + Tokens(f)
  {
    NegateMeans(c.negs, f, 0);
    var n := Negate(c.negs, f);
    assert Tokens(TermOf(c, f)) == ConjTokens(c.conj) + Tokens(n) by {
      if c.conj.Some? { Assoc(Tokens(c.conj.value), [TOpr('&')], Tokens(n)); }
    }
    Assoc(ConjTokens(c.conj), BangTokens(c.negs), Tokens(f));
    Assoc(DisjTokens(c.disj), ConjTokens(c.conj) + BangTokens(c.negs), Tokens(f));
    Assoc(DisjTokens(c.disj), ConjTokens(c.conj), BangTokens(c.negs));
  }

  lemma CloseOut(c: Context, f: Expr, out: seq<Node>)
    requires IsFactor(f)
    ensures out + DisjOut(c.disj) + Postfix(TermOf(c, f)) == OutOf(c, out) + Postfix(f) + TightOps(StackOf(c))
  {
    PopContext(c);
    NegateMeans(c.negs, f, 0);
  }

  /** The outcome both soundness lemmas establish: `e` is the whole expression, `toks` what was left of it. */
  ghost predicate Accepts(buf: string, a: Place, r: Parsed, before: seq<Token>, out: seq<Node>,
                          e: Expr, toks: seq<Token>, b: Place)
  {
    && IsExpr(e) && Fits(e, 0) && Tokens(e) == before + toks
    && Reads(buf, a, toks, b) && b.pos <= |buf| && b.count == a.count
    && (TokenAt(buf, b).tok == TEnd || TokenAt(buf, b).tok == TClose)
    && var t := TokenAt(buf, b); r == Parsed(t.pos, t.state, t.count, out + Postfix(e))
  }

  /** Accepting from behind a token is accepting from before it. */
  lemma AcceptsCons(buf: string, a: Place, r: Parsed, before: seq<Token>, out: seq<Node>,
                    e: Expr, toks: seq<Token>, b: Place)
    requires a.pos <= |buf| && TokenAt(buf, a).tok != TErr && TokenAt(buf, a).tok != TEnd
    requires After(TokenAt(buf, a)).count == a.count
    requires Accepts(buf, After(TokenAt(buf, a)), r, before + [TokenAt(buf, a).tok], out, e, toks, b)
    ensures Accepts(buf, a, r, before, out, e, [TokenAt(buf, a).tok] + toks, b)
  {
    ReadsCons(buf, a, toks, b);
    Assoc(before, [TokenAt(buf, a).tok], toks);
  }

  /** With term `t` complete, an operator or the end of the expression follows. */
  lemma {:induction false} OperatorSound(buf: string, a: Place, d: Option<Expr>, t: Expr, out: seq<Node>)
    returns (e: Expr, toks: seq<Token>, b: Place)
    requires a.pos <= |buf| && a.state == WaitOperator && a.count >= 0
    requires DisjOk(d) && IsTerm(t) && Fits(t, Base(d))
    requires PolAt(buf, a, DisjStack(d), out + DisjOut(d) + Postfix(t)).Parsed?
    ensures Accepts(buf, a, PolAt(buf, a, DisjStack(d), out + DisjOut(d) + Postfix(t)),
                    DisjTokens(d) + Tokens(t), out, e, toks, b)
    decreases |buf| - a.pos, 1
  {
    if TokenAt(buf, a).tok.TOpr? {
      e, toks, b := BinarySound(buf, a, d, t, out);
    } else {
      e, toks, b := WithTerm(d, t), [], a;
      EndStep(buf, a, d, t, out);
      Units(DisjTokens(d) + Tokens(t));
      WithTermTokens(d, t);
    }
  }

  lemma WithTermTokens(d: Option<Expr>, t: Expr)
    ensures Tokens(WithTerm(d, t)) == DisjTokens(d) + Tokens(t)
  {
    if d.Some? { Assoc(Tokens(d.value), [TOpr('|')], Tokens(t)); } else { Units(Tokens(t)); }
  }

  lemma {:induction false} BinarySound(buf: string, a: Place, d: Option<Expr>, t: Expr, out: seq<Node>)
    returns (e: Expr, toks: seq<Token>, b: Place)
    requires a.pos <= |buf| && a.state == WaitOperator && a.count >= 0 && TokenAt(buf, a).tok.TOpr?
    requires DisjOk(d) && IsTerm(t) && Fits(t, Base(d))
    requires PolAt(buf, a, DisjStack(d), out + DisjOut(d) + Postfix(t)).Parsed?
    ensures Accepts(buf, a, PolAt(buf, a, DisjStack(d), out + DisjOut(d) + Postfix(t)),
                    DisjTokens(d) + Tokens(t), out, e, toks, b)
    decreases |buf| - a.pos, 0
  {
    var x := TokenAt(buf, a);
    OperatorStep(buf, a, d, t, out);
    BehindOk(d, t, x.tok.op);
    e, toks, b := OperandSound(buf, After(x), Behind(d, t, x.tok.op), out);
    AcceptsCons(buf, a, PolAt(buf, a, DisjStack(d), out + DisjOut(d) + Postfix(t)),
                DisjTokens(d) + Tokens(t), out, e, toks, b);
    toks := [x.tok] + toks;
  }

  /** What is pending behind an operator that follows term `t`. */
  function Behind(d: Option<Expr>, t: Expr, op: char): Context {
    if op == '&' then Context(d, Some(t), 0) else Context(Some(WithTerm(d, t)), None, 0)
  }

  lemma BehindOk(d: Option<Expr>, t: Expr, op: char)
    requires DisjOk(d) && IsTerm(t) && Fits(t, Base(d)) && (op == '&' || op == '|')
    ensures ContextOk(Behind(d, t, op))
    ensures TokensOf(Behind(d, t, op)) == DisjTokens(d) + Tokens(t) + [TOpr(op)]
  {
    if op == '&' {
      Regroup(DisjTokens(d), Tokens(t), [TOpr('&')], []);
    } else if d.Some? {
      Assoc(Tokens(d.value), [TOpr('|')], Tokens(t));
      Units(Tokens(Disj(d.value, t)) + [TOpr('|')]);
    } else {
      Units(Tokens(t) + [TOpr('|')]);
      Units(Tokens(t));
    }
  }

  /** An operator that stays on the stack. */
  lemma PushOp(buf: string, a: Place, stack: seq<char>, out: seq<Node>)
    requires a.pos <= |buf| && TokenAt(buf, a).tok.TOpr? && |stack| < STACK_DEPTH
    requires stack == [] || TokenAt(buf, a).tok.op != '|'
    ensures PolAt(buf, a, stack, out) == PolAt(buf, After(TokenAt(buf, a)), stack + [TokenAt(buf, a).tok.op], out)
  {
  }

  lemma OperatorStep(buf: string, a: Place, d: Option<Expr>, t: Expr, out: seq<Node>)
    requires a.pos <= |buf| && a.state == WaitOperator && TokenAt(buf, a).tok.TOpr?
    ensures var x := TokenAt(buf, a);
      && (x.tok.op == '&' || x.tok.op == '|') && x.state == WaitOperand && x.count == a.count
      && PolAt(buf, a, DisjStack(d), out + DisjOut(d) + Postfix(t)) ==
         PolAt(buf, After(x), StackOf(Behind(d, t, x.tok.op)), OutOf(Behind(d, t, x.tok.op), out))
  {
    BehindStack(d, t, TokenAt(buf, a).tok.op);
    BehindOut(d, t, TokenAt(buf, a).tok.op, out);
    Units(out + DisjOut(d) + Postfix(t));
    if d.None? || TokenAt(buf, a).tok.op == '&' {
      PushOp(buf, a, DisjStack(d), out + DisjOut(d) + Postfix(t));
    }
  }

  lemma BehindStack(d: Option<Expr>, t: Expr, op: char)
    requires op == '&' || op == '|'
    ensures StackOf(Behind(d, t, op)) == if d.Some? && op == '|' then ['|'] else DisjStack(d) + [op]
  {
    if op == '&' { Units(DisjStack(d) + ['&']); } else { Units(['|']); }
  }

  lemma BehindOut(d: Option<Expr>, t: Expr, op: char, out: seq<Node>)
    requires op == '&' || op == '|'
    ensures OutOf(Behind(d, t, op), out) ==
            out + DisjOut(d) + Postfix(t) + if d.Some? && op == '|' then [Op('|')] else []
  {
    if op == '|' && d.Some? {
      Regroup(out, Postfix(d.value), Postfix(t), [Op('|')]);
    } else if op == '|' {
      Units(out);
      Units(out + Postfix(t));
    } else {
      Units(out + DisjOut(d) + Postfix(t));
    }
  }

  lemma EndStep(buf: string, a: Place, d: Option<Expr>, t: Expr, out: seq<Node>)
    requires a.pos <= |buf| && (TokenAt(buf, a).tok == TEnd || TokenAt(buf, a).tok == TClose)
    ensures var x := TokenAt(buf, a);
      PolAt(buf, a, DisjStack(d), out + DisjOut(d) + Postfix(t)) ==
      Parsed(x.pos, x.state, x.count, out + Postfix(WithTerm(d, t)))
  {
    PopOr();
    if d.Some? {
      Assoc(out, DisjOut(d), Postfix(t));
      Assoc(out, DisjOut(d) + Postfix(t), [Op('|')]);
    } else {
      Units(out);
      Units(out + Postfix(t));
    }
  }

  /** Factor `f` has just been read; go on behind it. */
  lemma {:induction false} FactorSound(buf: string, a: Place, a1: Place, c: Context, f: Expr, out: seq<Node>)
    returns (e: Expr, toks: seq<Token>, b: Place)
    requires a.pos < a1.pos <= |buf| && a1.state == WaitOperator && a1.count == a.count >= 0
    requires ContextOk(c) && IsFactor(f) && Fits(f, Base(c.disj) + Base(c.conj) + c.negs)
    requires Reads(buf, a, Tokens(f), a1)
    requires PolAt(buf, a, StackOf(c), OutOf(c, out)).Parsed?
    requires PolAt(buf, a, StackOf(c), OutOf(c, out)) ==
             PolAt(buf, a1, Loose(StackOf(c)), OutOf(c, out) + Postfix(f) + TightOps(StackOf(c)))
    ensures Accepts(buf, a, PolAt(buf, a, StackOf(c), OutOf(c, out)), TokensOf(c), out, e, toks, b)
    decreases |buf| - a1.pos, 2
  {
    PopContext(c);
    CloseFactor(c, f);
    CloseTokens(c, f);
    CloseOut(c, f, out);
    e, toks, b := OperatorSound(buf, a1, c.disj, TermOf(c, f), out);
    ReadsJoin(buf, a, Tokens(f), a1, toks, b);
    Assoc(TokensOf(c), Tokens(f), toks);
    toks := Tokens(f) + toks;
  }

  /** With `c` pending, an operand follows. */
  lemma {:induction false} OperandSound(buf: string, a: Place, c: Context, out: seq<Node>)
    returns (e: Expr, toks: seq<Token>, b: Place)
    requires a.pos <= |buf| && a.state == WaitOperand && a.count >= 0 && ContextOk(c)
    requires PolAt(buf, a, StackOf(c), OutOf(c, out)).Parsed?
    ensures Accepts(buf, a, PolAt(buf, a, StackOf(c), OutOf(c, out)), TokensOf(c), out, e, toks, b)
    decreases |buf| - a.pos, 3
  {
    match TokenAt(buf, a).tok {
      case TVal(v) =>
        OperandRead(buf, a, v);
        OperandStep(buf, a, v, StackOf(c), OutOf(c, out));
        e, toks, b := FactorSound(buf, a, After(TokenAt(buf, a)), c, Lit(v), out);
      case TOpr(op) =>
        e, toks, b := NegSound(buf, a, c, out);
      case TOpen =>
        var f, a1 := ParenSound(buf, a, StackOf(c), OutOf(c, out));
        e, toks, b := FactorSound(buf, a, a1, c, f, out);
    }
  }

  lemma {:induction false} NegSound(buf: string, a: Place, c: Context, out: seq<Node>)
    returns (e: Expr, toks: seq<Token>, b: Place)
    requires a.pos <= |buf| && a.state == WaitOperand && a.count >= 0 && ContextOk(c)
    requires TokenAt(buf, a).tok.TOpr? && PolAt(buf, a, StackOf(c), OutOf(c, out)).Parsed?
    ensures Accepts(buf, a, PolAt(buf, a, StackOf(c), OutOf(c, out)), TokensOf(c), out, e, toks, b)
    decreases |buf| - a.pos, 2
  {
    var x, c' := TokenAt(buf, a), c.(negs := c.negs + 1);
    NegStep(buf, a, c, out);
    e, toks, b := OperandSound(buf, After(x), c', out);
    Assoc(DisjTokens(c.disj) + ConjTokens(c.conj), BangTokens(c.negs), [x.tok]);
    AcceptsCons(buf, a, PolAt(buf, a, StackOf(c), OutOf(c, out)), TokensOf(c), out, e, toks, b);
    toks := [x.tok] + toks;
  }

  lemma OperandRead(buf: string, a: Place, v: int)
    requires a.pos <= |buf| && TokenAt(buf, a).tok == TVal(v)
    ensures a.state == WaitOperand && TokenAt(buf, a).state == WaitOperator && TokenAt(buf, a).count == a.count
    ensures Reads(buf, a, Tokens(Lit(v)), After(TokenAt(buf, a)))
  {
    assert [TVal(v)][1..] == [];
  }

  lemma OperandStep(buf: string, a: Place, v: int, stack: seq<char>, out: seq<Node>)
    requires a.pos <= |buf| && TokenAt(buf, a).tok == TVal(v)
    ensures PolAt(buf, a, stack, out) ==
            PolAt(buf, After(TokenAt(buf, a)), Loose(stack), out + Postfix(Lit(v)) + TightOps(stack))
  {
  }

  lemma NegStep(buf: string, a: Place, c: Context, out: seq<Node>)
    requires a.pos <= |buf| && a.state == WaitOperand && ContextOk(c) && TokenAt(buf, a).tok.TOpr?
    requires PolAt(buf, a, StackOf(c), OutOf(c, out)).Parsed?
    ensures var x, c' := TokenAt(buf, a), c.(negs := c.negs + 1);
      && x.tok.op == '!' && x.state == WaitOperand && x.count == a.count && ContextOk(c')
      && PolAt(buf, a, StackOf(c), OutOf(c, out)) == PolAt(buf, After(x), StackOf(c'), OutOf(c', out))
  {
    BangsLength(c.negs);
    assert StackOf(c.(negs := c.negs + 1)) == StackOf(c) + ['!'];
  }

  lemma {:induction false} BangsLength(n: nat)
    ensures |Bangs(n)| == n
  {
    if n > 0 { BangsLength(n - 1); }
  }

  lemma EmptyContext(out: seq<Node>)
    ensures StackOf(EMPTY) == [] && OutOf(EMPTY, out) == out && TokensOf(EMPTY) == []
  {
  }

  /** The tokens of an expression between parentheses. */
  lemma CloseParen(buf: string, a: Place, e: Expr, b: Place)
    requires a.pos <= |buf| && TokenAt(buf, a).tok == TOpen && Reads(buf, After(TokenAt(buf, a)), Tokens(e), b)
    requires b.pos <= |buf| && TokenAt(buf, b).tok == TClose
    ensures Reads(buf, a, Tokens(Paren(e)), After(TokenAt(buf, b)))
  {
    var a1 := After(TokenAt(buf, b));
    assert Reads(buf, b, [TClose], a1) by { assert [TClose][1..] == []; }
    ReadsJoin(buf, After(TokenAt(buf, a)), Tokens(e), b, [TClose], a1);
    ReadsCons(buf, a, Tokens(e) + [TClose], a1);
  }

  lemma {:induction false} ParenSound(buf: string, a: Place, stack: seq<char>, out: seq<Node>) returns (f: Expr, a1: Place)
    requires a.pos <= |buf| && a.state == WaitOperand && a.count >= 0
    requires TokenAt(buf, a).tok == TOpen && PolAt(buf, a, stack, out).Parsed?
    ensures a.pos < a1.pos <= |buf| && a1.state == WaitOperator && a1.count == a.count
    ensures f.Paren? && IsFactor(f) && Fits(f, 0) && Reads(buf, a, Tokens(f), a1)
    ensures PolAt(buf, a, stack, out) == PolAt(buf, a1, Loose(stack), out + Postfix(f) + TightOps(stack))
    decreases |buf| - a.pos, 0
  {
    EmptyContext(out);
    var e, toks, b := OperandSound(buf, After(TokenAt(buf, a)), EMPTY, out);
    Units(toks);
    f, a1 := Paren(e), After(TokenAt(buf, b));
    CloseParen(buf, a, e, b);
  }

  const START: Place := Place(0, WaitOperand, 0)

  /** `text` is an expression of the grammar, followed by nothing but blanks. */
  ghost predicate Writes(text: string, e: Expr) {
    IsExpr(e) && exists b :: Reads(text, START, Tokens(e), b) && b.pos <= |text| && TokenAt(text, b).tok == TEnd
  }

  /**
   makepol accepts a text exactly when it is written in the grammar and fits the operator stack,
   and what it emits is the postfix form of that expression.
   */
  lemma ParseIff(text: string, out: seq<Node>)
    ensures (Parse(text).Parsed? && Parse(text).out == out) <==>
            exists e :: Writes(text, e) && Fits(e, 0) && out == Postfix(e)
  {
    if Parse(text).Parsed? && Parse(text).out == out {
      assert StackOf(EMPTY) == [] && OutOf(EMPTY, []) == [];
      var e, toks, b := OperandSound(text, START, EMPTY, []);
      assert TokensOf(EMPTY) + toks == toks && [] + Postfix(e) == Postfix(e);
      assert Writes(text, e) && Fits(e, 0) && out == Postfix(e);
    }
    if e :| Writes(text, e) && Fits(e, 0) && out == Postfix(e) {
      ParseAccepts(text, e);
    }
  }

  lemma ParseAccepts(text: string, e: Expr)
    requires Writes(text, e) && Fits(e, 0)
    ensures Parse(text).Parsed? && Parse(text).out == Postfix(e)
  {
    var b :| Reads(text, START, Tokens(e), b) && b.pos <= |text| && TokenAt(text, b).tok == TEnd;
    ExprParse(text, START, e, b, []);
    PendingOps(e, []);
    assert [] + Postfix(e) == Postfix(e);
  }
}
