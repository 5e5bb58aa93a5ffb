/** The text input of hstores (contrib/hstore/hstore_io.c:29-279): a word scanner under a pair parser. */
module HstoreParser {
  import opened Lexicographic
  import opened Buffers
  import opened Hstore
  import opened Wrappers

  const NUL: Byte := 0
  const SPACE: Byte := 32
  const QUOTE: Byte := 34
  const COMMA: Byte := 44
  const EQUALS: Byte := 61
  const GREATER: Byte := 62
  const BACKSLASH: Byte := 92
  const MAX_LEN: nat := 0x3fff_ffff

  /** The longest word: one byte more does not fit the largest buffer with its terminator. */
  const MAX_WORD: nat := TOP_BYTES - 1

  /** The largest array of pairs: twice as many are refused. */
  const MAX_PAIRS: nat := 0x100_0000

  lemma PairArrays()
    ensures DoublesTo(16, MAX_PAIRS)
  {
    assert DoublesTo(0x40_0000, MAX_PAIRS);
    assert DoublesTo(0x10_0000, MAX_PAIRS);
    assert DoublesTo(0x4_0000, MAX_PAIRS);
    assert DoublesTo(0x1_0000, MAX_PAIRS);
    assert DoublesTo(0x4000, MAX_PAIRS);
    assert DoublesTo(0x1000, MAX_PAIRS);
    assert DoublesTo(0x400, MAX_PAIRS);
    assert DoublesTo(0x100, MAX_PAIRS);
    assert DoublesTo(0x40, MAX_PAIRS);
  }

  /** isspace in the C locale. */
  predicate IsSpace(c: Byte) { c == SPACE || 9 <= c <= 13 }

  /** The byte at a position of a C string; behind the last one there is the terminator. */
  function At(t: Bytes, i: int): Byte { if 0 <= i < |t| then t[i] else NUL }

  // Words

  datatype WordState = Waiting | InWord | InQuotes | Escaped | QuotedEscape

  datatype Scanned = Word(word: Bytes, escaped: bool, ptr: int) | NoWord | BadWord | WordEnd | WordTooBig

  /** get_val from position `i` on; `ptr` is where it leaves the pointer. */
  function Scan(t: Bytes, i: nat, st: WordState, word: Bytes, escaped: bool, ignoreeq: bool): (r: Scanned)
    requires i <= |t| && |word| <= if st.Waiting? then 0 else MAX_WORD
    ensures r.Word? ==> (if st.Waiting? then i else i - 1) <= r.ptr < |t| && |r.word| <= MAX_WORD
    decreases |t| - i
  {
    var c := At(t, i);
    match st
    case Waiting =>
      if c == QUOTE then Scan(t, i + 1, InQuotes, word, true, ignoreeq)
      else if c == NUL then NoWord
      else if c == EQUALS && !ignoreeq then BadWord
      else if c == BACKSLASH then Scan(t, i + 1, Escaped, word, escaped, ignoreeq)
      else if !IsSpace(c) then Scan(t, i + 1, InWord, word + [c], escaped, ignoreeq)
      else Scan(t, i + 1, Waiting, word, escaped, ignoreeq)
    case InWord =>
      if c == BACKSLASH then Scan(t, i + 1, Escaped, word, escaped, ignoreeq)
      else if c == EQUALS && !ignoreeq then Word(word, escaped, i - 1)
      else if c == COMMA && ignoreeq then Word(word, escaped, i - 1)
      else if IsSpace(c) then Word(word, escaped, i)
      else if c == NUL then Word(word, escaped, i - 1)
      else if |word| == MAX_WORD then WordTooBig
      else Scan(t, i + 1, InWord, word + [c], escaped, ignoreeq)
    case InQuotes =>
      if c == BACKSLASH then Scan(t, i + 1, QuotedEscape, word, escaped, ignoreeq)
      else if c == QUOTE then Word(word, escaped, i)
      else if c == NUL then WordEnd
      else if |word| == MAX_WORD then WordTooBig
      else Scan(t, i + 1, InQuotes, word + [c], escaped, ignoreeq)
    case Escaped =>
      if c == NUL then WordEnd
      else if |word| == MAX_WORD then WordTooBig
      else Scan(t, i + 1, InWord, word + [c], escaped, ignoreeq)
    case QuotedEscape =>
      if c == NUL then WordEnd
      else if |word| == MAX_WORD then WordTooBig
      else Scan(t, i + 1, InQuotes, word + [c], escaped, ignoreeq)
  }

  // Pairs

  datatype PairState = WaitKey | WaitEq | WaitGt | WaitVal | WaitDel

  /** `OutOfMemory` is the error of an allocation beyond the limit, of a word's buffer or of the array of pairs. */
  datatype Parsed = Pairs(ps: seq<Pair>) | SyntaxError | UnexpectedEnd | TooLong | OutOfMemory

  predicate IsNullWord(w: Bytes) {
    |w| == 4 && w[0] in {78, 110} && w[1] in {85, 117} && w[2] in {76, 108} && w[3] in {76, 108}
  }

  function ValueOf(w: Bytes, escaped: bool): Option<Bytes> {
    if !escaped && IsNullWord(w) then None else Some(w)
  }

  /** parse_hstore from position `i` on. */
  function ParseFrom(t: Bytes, i: nat, st: PairState, key: Bytes, acc: seq<Pair>): Parsed
    requires i <= |t|
    decreases |t| - i
  {
    var c := At(t, i);
    match st
    case WaitKey =>
      var s := Scan(t, i, Waiting, [], false, false);
      (match s
       case NoWord => Pairs(acc)
       case BadWord => SyntaxError
       case WordEnd => UnexpectedEnd
       case WordTooBig => OutOfMemory
       case Word(w, _, ptr) =>
         if |acc| == MAX_PAIRS then OutOfMemory
         else if |w| > MAX_LEN then TooLong
         else ParseFrom(t, ptr + 1, WaitEq, w, acc))
    case WaitEq =>
      if c == EQUALS then ParseFrom(t, i + 1, WaitGt, key, acc)
      else if c == NUL then UnexpectedEnd
      else if !IsSpace(c) then SyntaxError
      else ParseFrom(t, i + 1, WaitEq, key, acc)
    case WaitGt =>
      if c == GREATER then ParseFrom(t, i + 1, WaitVal, key, acc)
      else if c == NUL then UnexpectedEnd
      else SyntaxError
    case WaitVal =>
      var s := Scan(t, i, Waiting, [], false, true);
      (match s
       case NoWord => UnexpectedEnd
       case BadWord => SyntaxError
       case WordEnd => UnexpectedEnd
       case WordTooBig => OutOfMemory
       case Word(w, escaped, ptr) =>
         if |w| > MAX_LEN then TooLong
         else ParseFrom(t, ptr + 1, WaitDel, [], acc + [Pair(key, ValueOf(w, escaped))]))
    case WaitDel =>
      if c == COMMA then ParseFrom(t, i + 1, WaitKey, [], acc)
      else if c == NUL then Pairs(acc)
      else if !IsSpace(c) then SyntaxError
      else ParseFrom(t, i + 1, WaitDel, [], acc)
  }

  function Parse(t: Bytes): Parsed { ParseFrom(t, 0, WaitKey, [], []) }

  /** No word outgrows the limit on lengths: its buffer is refused before. */
  lemma {:induction false} NeverTooLong(t: Bytes, i: nat, st: PairState, key: Bytes, acc: seq<Pair>)
    requires i <= |t|
    ensures ParseFrom(t, i, st, key, acc) != TooLong
    decreases |t| - i
  {
    match st
    case WaitKey =>
      var s := Scan(t, i, Waiting, [], false, false);
      if s.Word? { NeverTooLong(t, s.ptr + 1, WaitEq, s.word, acc); }
    case WaitVal =>
      var s := Scan(t, i, Waiting, [], false, true);
      if s.Word? { NeverTooLong(t, s.ptr + 1, WaitDel, [], acc + [Pair(key, ValueOf(s.word, s.escaped))]); }
    case WaitEq =>
      if i < |t| {
        NeverTooLong(t, i + 1, WaitGt, key, acc);
        NeverTooLong(t, i + 1, WaitEq, key, acc);
      }
    case WaitGt =>
      if i < |t| { NeverTooLong(t, i + 1, WaitVal, key, acc); }
    case WaitDel =>
      if i < |t| {
        NeverTooLong(t, i + 1, WaitKey, [], acc);
        NeverTooLong(t, i + 1, WaitDel, [], acc);
      }
  }

  /** HSParser: the parser's pointer, its current word with the size of the word's buffer, and the pairs read. */
  class HSParser {
    const begin: Bytes
    var ptr: int
    var word: Bytes
    var wordlen: nat
    var pairs: seq<Pair>
    var plen: nat

    constructor (begin: Bytes)
      ensures this.begin == begin
    {
      this.begin := begin;
      ptr, word, wordlen, pairs, plen := 0, [], 32, [], 16;
    }

    /** The word and a terminator fit the buffer. */
    ghost predicate WordFits()
      reads this
    {
      |word| < wordlen && DoublesTo(wordlen, TOP_BYTES)
    }

    /** RESIZEPRSBUF and the store behind it: fails exactly on the longest word. */
    method Push(c: Byte) returns (ok: bool)
      requires WordFits()
      modifies this`word, this`wordlen
      ensures WordFits() && (ok <==> |old(word)| < MAX_WORD)
      ensures word == if ok then old(word) + [c] else old(word)
    {
      Grows(wordlen, TOP_BYTES, 1);
      if |word| + 1 >= wordlen {
        if 2 * wordlen > MAX_ALLOC {
          return false;
        }
        wordlen := wordlen * 2;
      }
      word := word + [c];
      ok := true;
    }

    /** Room for one more pair in the array: refused exactly when it is full at its largest. */
    method Reserve() returns (ok: bool)
      requires |pairs| <= plen && DoublesTo(plen, MAX_PAIRS)
      modifies this`plen
      ensures |pairs| <= plen && DoublesTo(plen, MAX_PAIRS)
      ensures ok <==> |pairs| != MAX_PAIRS
      ensures ok ==> |pairs| < plen
    {
      Grows(plen, MAX_PAIRS, PAIR_SIZE);
      if |pairs| >= plen {
        if 2 * plen * PAIR_SIZE > MAX_ALLOC {
          return false;
        }
        plen := plen * 2;
      }
      ok := true;
    }

    /** get_val. */
    method GetVal(ignoreeq: bool) returns (s: Scanned)
      requires 0 <= ptr <= |begin|
      modifies this`ptr, this`word, this`wordlen
      ensures s == Scan(begin, old(ptr), Waiting, [], false, ignoreeq)
      ensures s.Word? ==> ptr == s.ptr && word == s.word && |word| < wordlen
    {
      var st, escaped := Waiting, false;
      word, wordlen := [], 32;
      ByteBuffers();
      while true
        invariant 0 <= ptr <= |begin| && WordFits() && (st.Waiting? ==> word == [] && wordlen == 32)
        invariant Scan(begin, ptr, st, word, escaped, ignoreeq) == Scan(begin, old(ptr), Waiting, [], false, ignoreeq)
        decreases |begin| - ptr
      {
        var c := At(begin, ptr);
        match st {
          case Waiting =>
            if c == QUOTE {
              escaped, st := true, InQuotes;
            } else if c == NUL {
              return NoWord;
            } else if c == EQUALS && !ignoreeq {
              return BadWord;
            } else if c == BACKSLASH {
              st := Escaped;
            } else if !IsSpace(c) {
              word, st := word + [c], InWord;
            }
          case InWord =>
            if c == BACKSLASH {
              st := Escaped;
            } else if (c == EQUALS && !ignoreeq) || (c == COMMA && ignoreeq) {
              ptr := ptr - 1;
              return Word(word, escaped, ptr);
            } else if IsSpace(c) {
              return Word(word, escaped, ptr);
            } else if c == NUL {
              ptr := ptr - 1;
              return Word(word, escaped, ptr);
            } else {
              var ok := Push(c);
              if !ok {
                return WordTooBig;
              }
            }
          case InQuotes =>
            if c == BACKSLASH {
              st := QuotedEscape;
            } else if c == QUOTE {
              return Word(word, escaped, ptr);
            } else if c == NUL {
              return WordEnd;
            } else {
              var ok := Push(c);
              if !ok {
                return WordTooBig;
              }
            }
          case Escaped =>
            if c == NUL {
              return WordEnd;
            }
            var ok := Push(c);
            if !ok {
              return WordTooBig;
            }
            st := InWord;
          case QuotedEscape =>
            if c == NUL {
              return WordEnd;
            }
            var ok := Push(c);
            if !ok {
              return WordTooBig;
            }
            st := InQuotes;
        }
        ptr := ptr + 1;
      }
    }

    /** parse_hstore. */
    method ParseHstore() returns (r: Parsed)
      modifies this
      ensures r == Parse(begin) && (r.Pairs? ==> pairs == r.ps)
    {
      var st, key := WaitKey, [];
      pairs, plen, ptr := [], 16, 0;
      PairArrays();
      while true
        invariant 0 <= ptr <= |begin| && ParseFrom(begin, ptr, st, key, pairs) == Parse(begin)
        invariant (if st.WaitKey? || st.WaitDel? then |pairs| <= plen else |pairs| < plen) && DoublesTo(plen, MAX_PAIRS)
        decreases |begin| - ptr, if st.WaitKey? then 1 else 0
      {
        match st {
          case WaitKey =>
            var s := GetVal(false);
            match s {
              case NoWord => return Pairs(pairs);
              case BadWord => return SyntaxError;
              case WordEnd => return UnexpectedEnd;
              case WordTooBig => return OutOfMemory;
              case Word(w, _, _) =>
                var ok := Reserve();
                if !ok {
                  return OutOfMemory;
                }
                if |w| > MAX_LEN {
                  return TooLong;
                }
                key, st := w, WaitEq;
            }
          case WaitEq =>
            if At(begin, ptr) == EQUALS {
              st := WaitGt;
            } else if At(begin, ptr) == NUL {
              return UnexpectedEnd;
            } else if !IsSpace(At(begin, ptr)) {
              return SyntaxError;
            }
          case WaitGt =>
            if At(begin, ptr) == GREATER {
              st := WaitVal;
            } else if At(begin, ptr) == NUL {
              return UnexpectedEnd;
            } else {
              return SyntaxError;
            }
          case WaitVal =>
            var s := GetVal(true);
            match s {
              case NoWord => return UnexpectedEnd;
              case BadWord => return SyntaxError;
              case WordEnd => return UnexpectedEnd;
              case WordTooBig => return OutOfMemory;
              case Word(w, escaped, _) =>
                if |w| > MAX_LEN {
                  return TooLong;
                }
                pairs := pairs + [Pair(key, ValueOf(w, escaped))];
                key, st := [], WaitDel;
            }
          case WaitDel =>
            if At(begin, ptr) == COMMA {
              st := WaitKey;
            } else if At(begin, ptr) == NUL {
              return Pairs(pairs);
            } else if !IsSpace(At(begin, ptr)) {
              return SyntaxError;
            }
        }
        ptr := ptr + 1;
      }
    }
  }
}
