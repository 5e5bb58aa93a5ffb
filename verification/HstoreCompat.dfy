/**
 Reading hstores of the older layout (contrib/hstore/hstore_compat.c): the same two 32-bit words for every
 pair, but with lengths, a position and a null bit in them. They are rewritten in place.
 */
module HstoreCompat {
  import opened Lexicographic
  import opened Buffers
  import opened Hstore
  import opened Wrappers

  type Word = x: int | 0 <= x < 0x1_0000_0000

  const TOP: int := 0x8000_0000

  /** The two words of a pair. */
  datatype Slot = Slot(a: Word, b: Word)

  /** HOldEntry: lengths in the first word, null bit and position in the second. */
  datatype OldEntry = OldEntry(keylen: nat, vallen: nat, isnull: bool, pos: nat)

  function Old(s: Slot): OldEntry { OldEntry(s.a % 0x1_0000, s.a / 0x1_0000, s.b % 2 == 1, s.b / 2) }

  /** How many bytes of the value count. */
  function ValBytes(e: OldEntry): nat { if e.isnull then 0 else e.vallen }

  function OldLen(e: OldEntry): nat { e.keylen + ValBytes(e) }

  function OldSum(es: seq<OldEntry>, n: nat): nat
    requires n <= |es|
  {
    if n == 0 then 0 else OldSum(es, n - 1) + OldLen(es[n - 1])
  }

  // The new reading: an entry in each word

  function NewEntry(w: Word): HEntry { HEntry(w % POS_LIMIT, (w / POS_LIMIT) % 2 == 1, w >= TOP) }

  ghost predicate KeysGrow(es: seq<OldEntry>, n: nat) {
    n <= |es| && forall i, j :: 0 <= i < j < n ==> es[i].keylen <= es[j].keylen
  }

  /** Entry `i` begins where the one before it ends. */
  ghost predicate InPlace(es: seq<OldEntry>, i: int) { 0 <= i < |es| && es[i].pos == OldSum(es, i) }

  ghost predicate Contiguous(es: seq<OldEntry>, n: nat) {
    n <= |es| && forall i :: 0 <= i < n ==> InPlace(es, i)
  }

  /** A value of the old layout: count word, slots, and the size in the header. */
  ghost predicate OldValid(size: Word, es: seq<OldEntry>, varsize: nat) {
    && size <= 0xfff_ffff && |es| == size && KeysGrow(es, size) && Contiguous(es, size)
    && 8 * size + 8 + OldSum(es, size) <= varsize
  }

  lemma NotContiguous(es: seq<OldEntry>, i: nat)
    requires i < |es| && es[i].pos != OldSum(es, i)
    ensures !Contiguous(es, |es|)
  {
    assert !InPlace(es, i);
  }

  method KeysGrowLoop(es: seq<OldEntry>) returns (ok: bool)
    ensures ok <==> KeysGrow(es, |es|)
  {
    for i := 0 to |es|
      invariant KeysGrow(es, i)
    {
      if i > 0 && es[i].keylen < es[i - 1].keylen {
        return false;
      }
    }
    ok := true;
  }

  method ContiguousLoop(es: seq<OldEntry>) returns (ok: bool, lastpos: nat)
    ensures ok <==> Contiguous(es, |es|)
    ensures ok ==> lastpos == OldSum(es, |es|)
  {
    lastpos := 0;
    for i := 0 to |es|
      invariant Contiguous(es, i) && lastpos == OldSum(es, i)
    {
      if es[i].pos != lastpos {
        NotContiguous(es, i);
        return false, lastpos;
      }
      lastpos := lastpos + es[i].keylen + if es[i].isnull then 0 else es[i].vallen;
    }
    ok := true;
  }

  /**
   hstoreValidOldFormat: 0 for not valid, 1 for valid with slop behind the data, 2 for exactly valid. The
   slots are only looked at once the size says that they are there.
   */
  method ValidOldFormat(size: Word, es: seq<OldEntry>, varsize: nat) returns (v: int)
    requires 8 * size + 8 <= varsize && size <= 0xfff_ffff ==> |es| == size
    ensures v > 0 <==> size == 0 || OldValid(size, es, varsize)
    ensures v == 2 <==> size == 0 || (OldValid(size, es, varsize) && varsize == 8 * size + 8 + OldSum(es, size))
  {
    if size >= TOP {
      return 0;
    }
    if size == 0 {
      return 2;
    }
    if size > 0xfff_ffff || 8 * size + 8 > varsize {
      return 0;
    }
    if es[0].pos != 0 {
      NotContiguous(es, 0);
      return 0;
    }
    var grow := KeysGrowLoop(es);
    if !grow {
      return 0;
    }
    var ok, lastpos := ContiguousLoop(es);
    v := if !ok || 8 * size + 8 + lastpos > varsize then 0 else if 8 * size + 8 + lastpos != varsize then 1 else 2;
  }

  // The pairs of an old value

  lemma {:induction false} OldSumUpTo(es: seq<OldEntry>, n: nat, m: nat)
    requires n <= m <= |es|
    ensures OldSum(es, n) <= OldSum(es, m)
  {
    if n < m { OldSumUpTo(es, n, m - 1); }
  }

  function PairAt(str: Bytes, o: nat, klen: nat, isnull: bool, vlen: nat): Pair
    requires o + klen + vlen <= |str|
  {
    Pair(str[o..o + klen], if isnull then None else Some(str[o + klen..o + klen + vlen]))
  }

  lemma PairAtLen(str: Bytes, o: nat, klen: nat, isnull: bool, vlen: nat)
    requires o + klen + vlen <= |str| && (isnull ==> vlen == 0)
    ensures var p := PairAt(str, o, klen, isnull, vlen);
      |p.key| == klen && ItemLen(p) == klen + vlen && Flat(p) == str[o..o + klen + vlen] && p.val.None? == isnull
  {
  }

  ghost predicate IsOldPair(p: Pair, es: seq<OldEntry>, str: Bytes, i: int) {
    && 0 <= i < |es| && OldSum(es, i) + OldLen(es[i]) <= |str|
    && p == PairAt(str, OldSum(es, i), es[i].keylen, es[i].isnull, ValBytes(es[i]))
  }

  /** `ps` are the pairs that an old value with the entries `es` and the strings `str` holds. */
  ghost predicate OldPairs(ps: seq<Pair>, es: seq<OldEntry>, str: Bytes) {
    && |es| == |ps| && OldSum(es, |es|) <= |str|
    && forall i :: 0 <= i < |ps| ==> IsOldPair(ps[i], es, str, i)
  }

  /** Every valid old value holds pairs: one for each slot. */
  lemma ValidHasPairs(size: Word, es: seq<OldEntry>, varsize: nat, str: Bytes) returns (ps: seq<Pair>)
    requires OldValid(size, es, varsize) && |str| == varsize - 8 * size - 8
    ensures OldPairs(ps, es, str)
  {
    forall i | 0 <= i < |es| ensures OldSum(es, i) + OldLen(es[i]) <= |str| { OldSumUpTo(es, i + 1, |es|); }
    ps := seq(|es|, i requires 0 <= i < |es| =>
      PairAt(str, OldSum(es, i), es[i].keylen, es[i].isnull, ValBytes(es[i])));
  }

  lemma {:induction false} SumsAgree(ps: seq<Pair>, es: seq<OldEntry>, str: Bytes, n: nat)
    requires OldPairs(ps, es, str) && n <= |ps|
    ensures Sum(ps, n) == OldSum(es, n)
  {
    if n > 0 {
      var e := es[n - 1];
      assert IsOldPair(ps[n - 1], es, str, n - 1);
      SumsAgree(ps, es, str, n - 1);
      PairAtLen(str, OldSum(es, n - 1), e.keylen, e.isnull, ValBytes(e));
    }
  }

  lemma PairString(p: Pair, es: seq<OldEntry>, str: Bytes, i: nat)
    requires IsOldPair(p, es, str, i)
    ensures OldSum(es, i) <= OldSum(es, i + 1) <= |str| && Flat(p) == str[OldSum(es, i)..OldSum(es, i + 1)]
  {
    PairAtLen(str, OldSum(es, i), es[i].keylen, es[i].isnull, ValBytes(es[i]));
  }

  lemma {:induction false} StringsAgree(ps: seq<Pair>, es: seq<OldEntry>, str: Bytes, n: nat)
    requires OldPairs(ps, es, str) && n <= |ps|
    ensures OldSum(es, n) <= |str| && StrTo(ps, n) == str[..OldSum(es, n)]
  {
    if n > 0 {
      StringsAgree(ps, es, str, n - 1);
      PairString(ps[n - 1], es, str, n - 1);
      Slices(str, OldSum(es, n - 1), OldSum(es, n));
    }
  }

  lemma Slices(str: Bytes, a: nat, b: nat)
    requires a <= b <= |str|
    ensures str[..a] + str[a..b] == str[..b]
  {
  }

  // The rewrite

  /** The new entries of a pair at offset `o`. */
  ghost predicate Rewritten(w: Slot, e: OldEntry, o: nat, first: bool) {
    && NewEntry(w.a) == HEntry(o + e.keylen, false, first)
    && NewEntry(w.b) == HEntry(o + OldLen(e), e.isnull, false)
  }

  lemma EntryOf(pos: nat, isnull: bool)
    requires pos < POS_LIMIT
    ensures NewEntry(pos + if isnull then POS_LIMIT else 0) == HEntry(pos, isnull, false)
  {
  }

  /** The words that replace the two words of an old pair. */
  method NewSlot(e: OldEntry) returns (w: Slot)
    requires e.pos + OldLen(e) < POS_LIMIT
    ensures Rewritten(w, e, e.pos, false)
  {
    var vallen := e.vallen;
    if e.isnull {
      vallen := 0;
    }
    EntryOf(e.pos + e.keylen, false);
    EntryOf(e.pos + e.keylen + vallen, e.isnull);
    w := Slot((e.pos + e.keylen) % POS_LIMIT,
              (e.pos + e.keylen + vallen) % POS_LIMIT + if e.isnull then POS_LIMIT else 0);
  }

  /** HENTRY_ISFIRST. */
  method FlagFirstWord(w: Word) returns (r: Word)
    requires !NewEntry(w).isfirst
    ensures NewEntry(r) == NewEntry(w).(isfirst := true)
  {
    r := w + TOP;
  }

  /** The slots read as `es`. */
  ghost predicate Holds(slots: seq<Slot>, es: seq<OldEntry>) {
    |slots| == |es| && forall i :: 0 <= i < |es| ==> Old(slots[i]) == es[i]
  }

  ghost predicate RewrittenAt(w: Slot, es: seq<OldEntry>, i: int, first: bool) {
    0 <= i < |es| && Rewritten(w, es[i], OldSum(es, i), first)
  }

  /** All slots are rewritten, and the first one is flagged. */
  ghost predicate Done(slots: seq<Slot>, es: seq<OldEntry>) {
    |slots| == |es| && forall i :: 0 <= i < |es| ==> RewrittenAt(slots[i], es, i, i == 0)
  }

  lemma PosFits(es: seq<OldEntry>, i: nat)
    requires i < |es| && InPlace(es, i)
    ensures es[i].pos == OldSum(es, i) && es[i].pos + OldLen(es[i]) <= OldSum(es, |es|)
  {
    OldSumUpTo(es, i + 1, |es|);
  }

  /** The conversion of hstoreUpgrade: every pair in turn, then the flag of the first entry. */
  method Upgrade(slots: array<Slot>, size: Word, varsize: nat, ghost es: seq<OldEntry>)
    requires 0 < size && Holds(slots[..], es) && OldValid(size, es, varsize) && varsize <= MAX_ALLOC
    modifies slots
    ensures Done(slots[..], es)
  {
    for i := 0 to size
      invariant forall k :: i <= k < size ==> Old(slots[k]) == es[k]
      invariant forall k :: 0 <= k < i ==> RewrittenAt(slots[k], es, k, false)
    {
      PosFits(es, i);
      var w := NewSlot(Old(slots[i]));
      slots[i] := w;
    }
    assert RewrittenAt(slots[0], es, 0, false);
    var a := FlagFirstWord(slots[0].a);
    slots[0] := slots[0].(a := a);
  }

  /** What the rewritten words and the strings are in the new reading, with the size set to fit. */
  ghost predicate ReadsAs(ws: seq<Slot>, str: Bytes, h: HStore) {
    && |h.entries| == 2 * |ws| && |h.str| <= |str| && h.str == str[..|h.str|]
    && (ws != [] ==> |h.str| == NewEntry(ws[|ws| - 1].b).endpos)
    && forall i :: 0 <= i < |ws| ==> h.entries[2 * i] == NewEntry(ws[i].a) && h.entries[2 * i + 1] == NewEntry(ws[i].b)
  }

  /**
   An upgraded value is the packed form of exactly the pairs the old value held: every key, value and
   null kept, end positions and the first flag as they should be, nothing behind the last string.
   */
  lemma UpgradeKeepsPairs(es: seq<OldEntry>, ws: seq<Slot>, str: Bytes, ps: seq<Pair>)
    requires es != [] && OldPairs(ps, es, str) && Done(ws, es)
    ensures ReadsAs(ws, str, Layout(ps))
  {
    var h := Layout(ps);
    SumsAgree(ps, es, str, |ps|);
    StringsAgree(ps, es, str, |ps|);
    forall i | 0 <= i < |ws| ensures h.entries[2 * i] == NewEntry(ws[i].a) && h.entries[2 * i + 1] == NewEntry(ws[i].b) {
      PairEntries(ps, i);
      assert IsOldPair(ps[i], es, str, i);
      SumsAgree(ps, es, str, i);
      PairAtLen(str, OldSum(es, i), es[i].keylen, es[i].isnull, ValBytes(es[i]));
      assert RewrittenAt(ws[i], es, i, i == 0);
    }
    assert |h.str| == OldSum(es, |es|);
  }

  // Telling the layouts apart

  /**
   The fast path takes a value of less than 32 kB for a new one when the top bit of its first word is
   set. A valid old value is mistaken for a new one exactly when its first value is null and its
   meaningless length is 32768 or more.
   */
  lemma FastPathMistakesIff(size: Word, s: Slot, es: seq<OldEntry>, varsize: nat)
    requires 0 < size && OldValid(size, es, varsize) && es[0] == Old(s) && varsize < 32768
    ensures NewEntry(s.a).isfirst <==> es[0].isnull && es[0].vallen >= 32768
  {
    OldSumUpTo(es, 1, size);
    assert OldSum(es, 1) == OldSum(es, 0) + OldLen(es[0]);
  }

  /** The smallest such value: one pair with an empty key, a null value and 32768 for its length. */
  lemma FastPathCanMistake()
    ensures var s := Slot(TOP, 1);
      OldValid(1, [Old(s)], 16) && NewEntry(s.a).isfirst
  {
    var s := Slot(TOP, 1);
    var es := [Old(s)];
    assert OldSum(es, 0) == 0 && OldSum(es, 1) == 0;
    assert InPlace(es, 0);
  }
}
