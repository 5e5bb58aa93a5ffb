/**
 The input side of intarray's query_int (contrib/intarray/_int_bool.c): the tokenizer gettoken and
 the operator-stack parser makepol.  Both are written as the state machines they are, each proved
 against a recursive function that the later theorems speak about.
 */
module IntQuerySyntax {

  const INT32_MIN: int := -0x8000_0000
  const INT32_MAX: int := 0x7fff_ffff
  const STACK_DEPTH: nat := 16
  const NUMBER_BUFFER: nat := 16

  /** A query item before its operand link is known. */
  datatype Node = Num(val: int) | Op(op: char)

  datatype Token = TVal(val: int) | TOpr(op: char) | TOpen | TClose | TEnd | TErr

  datatype Wait = WaitOperand | WaitEndOperand | WaitOperator

  /** A token together with the tokenizer state after it. */
  datatype Lexed = Lexed(tok: Token, pos: nat, state: Wait, count: int)

  /** The character at `pos`; a C string ends with a NUL. */
  function Cur(buf: string, pos: nat): char {
    if pos < |buf| then buf[pos] else '\0'
  }

  predicate IsDigit(c: char) { '0' <= c <= '9' }

  function DigitVal(c: char): nat
    requires IsDigit(c)
  {
    c as int - '0' as int
  }

  /** The longest run of digits valid in `base`, read onto `acc`. */
  function ReadDigits(s: string, base: nat, acc: nat): nat {
    if s == "" || !IsDigit(s[0]) || DigitVal(s[0]) >= base then acc
    else ReadDigits(s[1..], base, acc * base + DigitVal(s[0]))
  }

  /** strtol with base 0 on an optional sign and digits: a leading zero means octal, no digits mean 0. */
  function StrToL(s: string): int {
    if s == "" then 0
    else if s[0] == '-' then -(ReadDigits(s[1..], if s[1..] != "" && s[1] == '0' then 8 else 10, 0) as int)
    else ReadDigits(s, if s[0] == '0' then 8 else 10, 0)
  }

  /** Where the run of digits from `pos` ends. */
  function DigitsEnd(buf: string, pos: nat): (e: nat)
    requires pos <= |buf|
    ensures pos <= e <= |buf|
    ensures forall i :: pos <= i < e ==> IsDigit(buf[i])
    ensures !IsDigit(Cur(buf, e))
    decreases |buf| - pos
  {
    if pos < |buf| && IsDigit(buf[pos]) then DigitsEnd(buf, pos + 1) else pos
  }

  /** The token of a number that starts at `pos` and ends before `e`. */
  function NumberToken(buf: string, pos: nat, e: nat, count: int): Lexed
    requires pos <= e <= |buf|
  {
    var val := StrToL(buf[pos..e]);
    if e - pos >= NUMBER_BUFFER || val < INT32_MIN || val > INT32_MAX then Lexed(TErr, e, WaitEndOperand, count)
    else if count != 0 && Cur(buf, e) == '\0' then Lexed(TErr, e, WaitOperator, count)
    else Lexed(TVal(val), e, WaitOperator, count)
  }

  function SkipSpaces(buf: string, pos: nat): (q: nat)
    requires pos <= |buf|
    ensures pos <= q <= |buf| && Cur(buf, q) != ' '
    decreases |buf| - pos
  {
    if pos < |buf| && buf[pos] == ' ' then SkipSpaces(buf, pos + 1) else pos
  }

  function OperandToken(buf: string, pos: nat, count: int): Lexed
    requires pos <= |buf|
  {
    var c := Cur(buf, pos);
    if pos < |buf| && (IsDigit(c) || c == '-') then NumberToken(buf, pos, DigitsEnd(buf, pos + 1), count)
    else if pos < |buf| && c == '!' then Lexed(TOpr('!'), pos + 1, WaitOperand, count)
    else if pos < |buf| && c == '(' then Lexed(TOpen, pos + 1, WaitOperand, count + 1)
    else Lexed(TErr, pos, WaitOperand, count)
  }

  function OperatorToken(buf: string, pos: nat, count: int): Lexed
    requires pos <= |buf|
  {
    var c := Cur(buf, pos);
    if pos < |buf| && (c == '&' || c == '|') then Lexed(TOpr(c), pos + 1, WaitOperand, count)
    else if pos < |buf| && c == ')' then
      Lexed(if count - 1 < 0 then TErr else TClose, pos + 1, WaitOperator, count - 1)
    else if c == '\0' then Lexed(if count != 0 then TErr else TEnd, pos, WaitOperator, count)
    else Lexed(TErr, pos, WaitOperator, count)
  }

  /** What gettoken returns; states and positions after an error do not matter. */
  function NextToken(buf: string, pos: nat, state: Wait, count: int): (r: Lexed)
    requires pos <= |buf|
    ensures pos <= r.pos <= |buf|
    ensures r.tok != TErr && r.tok != TEnd ==> pos < r.pos
    ensures r.tok != TErr ==> r.state != WaitEndOperand
  {
    match state
    case WaitOperand => OperandToken(buf, SkipSpaces(buf, pos), count)
    case WaitOperator => OperatorToken(buf, SkipSpaces(buf, pos), count)
    case WaitEndOperand => Lexed(TErr, pos, WaitEndOperand, count)
  }

  predicate Tight(op: char) { op == '&' || op == '!' }

  /** The stack after popping `&` and `!` from its top. */
  function Loose(stack: seq<char>): seq<char> {
    if stack != [] && Tight(stack[|stack| - 1]) then Loose(stack[..|stack| - 1]) else stack
  }

  /** What that emits. */
  function TightOps(stack: seq<char>): seq<Node> {
    if stack != [] && Tight(stack[|stack| - 1]) then [Op(stack[|stack| - 1])] + TightOps(stack[..|stack| - 1]) else []
  }

  /** What popping the whole stack emits. */
  function AllOps(stack: seq<char>): seq<Node> {
    if stack == [] then [] else [Op(stack[|stack| - 1])] + AllOps(stack[..|stack| - 1])
  }

  datatype Parsed = Parsed(pos: nat, state: Wait, count: int, out: seq<Node>) | SyntaxError | TooComplex

  /** makepol from the middle of its loop: `out` is what has been emitted, `stack` what is pending. */
  function MakePol(buf: string, pos: nat, state: Wait, count: int, stack: seq<char>, out: seq<Node>): (r: Parsed)
    requires pos <= |buf|
    ensures r.Parsed? ==> pos <= r.pos <= |buf|
    decreases |buf| - pos
  {
    var t := NextToken(buf, pos, state, count);
    match t.tok
    case TVal(v) =>
      MakePol(buf, t.pos, t.state, t.count, Loose(stack), out + [Num(v)] + TightOps(stack))
    case TOpr(op) =>
      if stack != [] && op == '|' then MakePol(buf, t.pos, t.state, t.count, stack, out + [Op(op)])
      else if |stack| == STACK_DEPTH then TooComplex
      else MakePol(buf, t.pos, t.state, t.count, stack + [op], out)
    case TOpen =>
      (match MakePol(buf, t.pos, t.state, t.count, [], out)
       case Parsed(pos', state', count', out') =>
         MakePol(buf, pos', state', count', Loose(stack), out' + TightOps(stack))
       case e => e)
    case TClose => Parsed(t.pos, t.state, t.count, out + AllOps(stack))
    case TEnd => Parsed(t.pos, t.state, t.count, out + AllOps(stack))
    case TErr => SyntaxError
  }

  /** What bqarr_in parses a text to. */
  function Parse(text: string): Parsed {
    MakePol(text, 0, WaitOperand, 0, [], [])
  }

  datatype Status = Ok | Syntax | Complex

  /** The parser's work state: WORKSTATE with its list of nodes in the order they were pushed. */
  class WorkState {
    const buf: string
    var pos: nat
    var state: Wait
    var count: int
    var str: seq<Node>

    constructor (text: string)
      ensures buf == text && pos == 0 && state == WaitOperand && count == 0 && str == []
    {
      buf := text;
      pos, state, count, str := 0, WaitOperand, 0, [];
    }

    /** What the loop of gettoken keeps: `goal` is the token to return, `nnn` the number read so far. */
    static ghost predicate Scanning(buf: string, goal: Lexed, start: nat, pos: nat, state: Wait, count: int, nnn: string) {
      && pos <= |buf| && |nnn| <= NUMBER_BUFFER
      && if state == WaitEndOperand
         then start < pos && nnn == buf[start..pos] && goal == NumberToken(buf, start, DigitsEnd(buf, pos), count)
         else nnn == "" && goal == NextToken(buf, pos, state, count)
    }

    static lemma NumberStarts(buf: string, goal: Lexed, pos: nat, count: int)
      requires Scanning(buf, goal, pos, pos, WaitOperand, count, "")
      requires pos < |buf| && (IsDigit(buf[pos]) || buf[pos] == '-')
      ensures Scanning(buf, goal, pos, pos + 1, WaitEndOperand, count, [buf[pos]])
    {
    }

    static lemma NumberGrows(buf: string, goal: Lexed, start: nat, pos: nat, count: int, nnn: string)
      requires Scanning(buf, goal, start, pos, WaitEndOperand, count, nnn)
      requires |nnn| < NUMBER_BUFFER && pos < |buf| && IsDigit(buf[pos])
      ensures Scanning(buf, goal, start, pos + 1, WaitEndOperand, count, nnn + [buf[pos]])
    {
    }

    static lemma NumberEnds(buf: string, goal: Lexed, start: nat, pos: nat, count: int, nnn: string)
      requires Scanning(buf, goal, start, pos, WaitEndOperand, count, nnn)
      ensures |nnn| == NUMBER_BUFFER ==> goal.tok == TErr
      ensures |nnn| < NUMBER_BUFFER && !IsDigit(Cur(buf, pos)) ==> goal == NumberToken(buf, start, pos, count)
    {
    }

    /** The call may return `tok` now. */
    ghost predicate Delivers(goal: Lexed, tok: Token)
      reads this
    {
      pos <= |buf| && tok == goal.tok && (tok != TErr ==> pos == goal.pos && state == goal.state && count == goal.count)
    }

    /** One turn of the loop in each of its three states. */
    method AtOperand(ghost goal: Lexed) returns (done: bool, tok: Token, nnn: string)
      requires state == WaitOperand && Scanning(buf, goal, pos, pos, state, count, "")
      modifies this`pos, this`state, this`count
      ensures done ==> Delivers(goal, tok)
      ensures !done ==> pos == old(pos) + 1 && count == old(count) && Scanning(buf, goal, old(pos), pos, state, count, nnn)
    {
      var c := Cur(buf, pos);
      done, tok, nnn := true, TErr, "";
      if pos < |buf| && (IsDigit(c) || c == '-') {
        NumberStarts(buf, goal, pos, count);
        state := WaitEndOperand;
        done, nnn, pos := false, [c], pos + 1;
      } else if pos < |buf| && c == '!' {
        tok, pos := TOpr('!'), pos + 1;
      } else if pos < |buf| && c == '(' {
        tok, pos, count := TOpen, pos + 1, count + 1;
      } else if pos < |buf| && c == ' ' {
        done, pos := false, pos + 1;
      }
    }

    method AtEndOperand(ghost goal: Lexed, ghost start: nat, nnn: string) returns (done: bool, tok: Token, nnn': string)
      requires state == WaitEndOperand && Scanning(buf, goal, start, pos, state, count, nnn) && |nnn| < NUMBER_BUFFER
      modifies this`pos, this`state
      ensures done ==> Delivers(goal, tok)
      ensures !done ==> pos == old(pos) + 1 && Scanning(buf, goal, start, pos, state, count, nnn')
    {
      var c := Cur(buf, pos);
      NumberEnds(buf, goal, start, pos, count, nnn);
      nnn' := nnn;
      if IsDigit(c) {
        NumberGrows(buf, goal, start, pos, count, nnn);
        done, tok, nnn', pos := false, TErr, nnn + [c], pos + 1;
      } else {
        var val := StrToL(nnn);
        if val < INT32_MIN || val > INT32_MAX {
          return true, TErr, nnn;
        }
        state := WaitOperator;
        done, tok := true, if count != 0 && c == '\0' then TErr else TVal(val);
      }
    }

    method AtOperator(ghost goal: Lexed) returns (done: bool, tok: Token)
      requires state == WaitOperator && Scanning(buf, goal, pos, pos, state, count, "")
      modifies this`pos, this`state, this`count
      ensures done ==> Delivers(goal, tok)
      ensures !done ==> pos == old(pos) + 1 && count == old(count) && Scanning(buf, goal, pos, pos, state, count, "")
    {
      var c := Cur(buf, pos);
      done, tok := true, TErr;
      if pos < |buf| && (c == '&' || c == '|') {
        tok, pos, state := TOpr(c), pos + 1, WaitOperand;
      } else if pos < |buf| && c == ')' {
        pos, count := pos + 1, count - 1;
        tok := if count < 0 then TErr else TClose;
      } else if c == '\0' {
        tok := if count != 0 then TErr else TEnd;
      } else if c == ' ' {
        done, pos := false, pos + 1;
      }
    }

    method GetToken() returns (tok: Token)
      requires pos <= |buf| && state != WaitEndOperand
      modifies this`pos, this`state, this`count
      ensures Delivers(NextToken(buf, old(pos), old(state), old(count)), tok)
    {
      var nnn := "";
      ghost var goal := NextToken(buf, pos, state, count);
      ghost var start: nat := pos;
      while true
        invariant Scanning(buf, goal, start, pos, state, count, nnn)
        decreases |buf| - pos
      {
        if |nnn| >= NUMBER_BUFFER {
          NumberEnds(buf, goal, start, pos, count, nnn);
          return TErr;
        }
        var done;
        match state {
          case WaitOperand =>
            start := pos;
            done, tok, nnn := AtOperand(goal);
          case WaitEndOperand =>
            done, tok, nnn := AtEndOperand(goal, start, nnn);
          case WaitOperator =>
            done, tok := AtOperator(goal);
        }
        if done {
          return;
        }
      }
    }

    method PushQuery(node: Node)
      modifies this`str
      ensures str == old(str) + [node]
    {
      str := str + [node];
    }

    /** Pops `&` and `!` from the top of the stack into the output. */
    method PopTight(stack: seq<char>) returns (rest: seq<char>)
      modifies this`str
      ensures rest == Loose(stack) && str == old(str) + TightOps(stack)
    {
      rest := stack;
      while rest != [] && Tight(rest[|rest| - 1])
        invariant Loose(rest) == Loose(stack) && str + TightOps(rest) == old(str) + TightOps(stack)
        decreases |rest|
      {
        PushQuery(Op(rest[|rest| - 1]));
        rest := rest[..|rest| - 1];
      }
    }

    method PopAll(stack: seq<char>)
      modifies this`str
      ensures str == old(str) + AllOps(stack)
    {
      var rest := stack;
      while rest != []
        invariant str + AllOps(rest) == old(str) + AllOps(stack)
        decreases |rest|
      {
        PushQuery(Op(rest[|rest| - 1]));
        rest := rest[..|rest| - 1];
      }
    }

    method MakePolish() returns (r: Status)
      requires pos <= |buf| && state != WaitEndOperand
      modifies this`pos, this`state, this`count, this`str
      ensures match MakePol(buf, old(pos), old(state), old(count), [], old(str))
              case Parsed(p, st, n, out) =>
                r == Ok && pos == p && state == st && count == n && str == out && old(pos) <= p <= |buf|
                && st != WaitEndOperand
              case SyntaxError => r == Syntax
              case TooComplex => r == Complex
      decreases |buf| - pos
    {
      var stack: seq<char> := [];
      ghost var goal := MakePol(buf, pos, state, count, [], str);
      while true
        invariant old(pos) <= pos <= |buf| && state != WaitEndOperand
        invariant goal == MakePol(buf, pos, state, count, stack, str)
        decreases |buf| - pos
      {
        var tok := GetToken();
        match tok {
          case TVal(v) =>
            PushQuery(Num(v));
            stack := PopTight(stack);
          case TOpr(op) =>
            if stack != [] && op == '|' {
              PushQuery(Op(op));
            } else {
              if |stack| == STACK_DEPTH {
                return Complex;
              }
              stack := stack + [op];
            }
          case TOpen =>
            var inner := MakePolish();
            if inner != Ok {
              return inner;
            }
            stack := PopTight(stack);
          case TClose =>
            PopAll(stack);
            return Ok;
          case TEnd =>
            PopAll(stack);
            return Ok;
          case TErr =>
            return Syntax;
        }
      }
    }
  }
}
