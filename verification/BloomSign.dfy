/**
 Bloom signatures (contrib/bloom/blutils.c:248-303, blscan.c:91-169): how rows and scans are signed, and
 why a scan never passes over a row that satisfies its keys.
 */
module BloomSign {
  import opened BitXor
  import opened BloomRand
  import opened Wrappers

  /** A signature word is the set of its bits. */
  type Word = set<nat>

  const WORD_BITS: nat := 16

  /** The options on the metapage: the length of signatures in words, and the bits drawn for every column. */
  datatype Options = Options(bloomLength: nat, bitSize: seq<nat>)

  predicate ValidOptions(o: Options) { 0 < o.bloomLength <= 256 && |o.bitSize| <= 32 }

  // Seeds

  lemma ColumnSeedGood(attno: nat)
    requires attno < 32
    ensures Good(Seeded(attno)) && 1 <= Next(Seeded(attno)) <= P - 1
  {
    assert Seeded(attno) == attno + 1;
    SplitIsNext(Seeded(attno));
  }

  /** What the column number is turned into. */
  function ColumnDraw(attno: nat): (r: int)
    requires attno < 32
    ensures 0 <= r <= 0x7fff_fffd
  {
    ColumnSeedGood(attno);
    Next(Seeded(attno)) - 1
  }

  /** The state from which the bits of a value are drawn. */
  function StartState(attno: nat, hash: int): int
    requires attno < 32 && UInt32(hash)
  {
    Seeded(Xor32(hash, ColumnDraw(attno)))
  }

  /** In every column there are exactly two hash values that cannot be signed. */
  lemma GoodHashIff(attno: nat, hash: int)
    requires attno < 32 && UInt32(hash)
    ensures var d := ColumnDraw(attno);
      Good(StartState(attno, hash)) <==> hash != Xor32(d, 0xffff_ffff) && hash != Xor32(d, 0x8000_0001)
  {
    var d := ColumnDraw(attno);
    SeedIff(Xor32(hash, d));
    XorSolves(hash, d, 0xffff_ffff);
    XorSolves(hash, d, 0x8000_0001);
  }

  // Bits

  /** Bit `j` drawn from a state. */
  function Draw(start: int, length: nat, j: nat): int
    requires length > 0
  {
    (StateAfter(start, j) - 1) % (length * WORD_BITS)
  }

  /** Bit `n` is among the first `k` drawn. */
  ghost predicate Drawn(start: int, length: nat, k: nat, n: int)
    requires length > 0
  {
    exists j :: 0 < j <= k && Draw(start, length, j) == n
  }

  /** The value puts bit `n` into a signature: that depends on nothing but column, hash and options. */
  ghost predicate ValueBit(o: Options, attno: nat, hash: int, n: int)
    requires ValidOptions(o) && attno < |o.bitSize| && UInt32(hash)
  {
    Drawn(StartState(attno, hash), o.bloomLength, o.bitSize[attno], n)
  }

  predicate HasBit(sign: seq<Word>, n: int) { 0 <= n && n / WORD_BITS < |sign| && n % WORD_BITS in sign[n / WORD_BITS] }

  method SetBit(sign: array<Word>, n: nat)
    requires n < sign.Length * WORD_BITS
    modifies sign
    ensures forall m :: HasBit(sign[..], m) <==> old(HasBit(sign[..], m)) || m == n
  {
    var w := n / WORD_BITS;
    sign[w] := sign[w] + {n % WORD_BITS};
  }

  /** The signature has gained exactly the first `k` bits drawn. */
  ghost predicate Gained(start: int, length: nat, k: nat, before: seq<Word>, after: seq<Word>)
    requires length > 0
  {
    forall n :: HasBit(after, n) <==> HasBit(before, n) || Drawn(start, length, k, n)
  }

  lemma DrawnNext(start: int, length: nat, k: nat, n: int)
    requires length > 0
    ensures Drawn(start, length, k + 1, n) <==> Drawn(start, length, k, n) || n == Draw(start, length, k + 1)
  {
    if Drawn(start, length, k, n) {
      var j :| 0 < j <= k && Draw(start, length, j) == n;
      assert 0 < j <= k + 1 && Draw(start, length, j) == n;
    }
  }

  lemma GainedNext(start: int, length: nat, k: nat, before: seq<Word>, mid: seq<Word>, after: seq<Word>)
    requires length > 0 && Gained(start, length, k, before, mid)
    requires forall n :: HasBit(after, n) <==> HasBit(mid, n) || n == Draw(start, length, k + 1)
    ensures Gained(start, length, k + 1, before, after)
  {
    forall n ensures HasBit(after, n) <==> HasBit(before, n) || Drawn(start, length, k + 1, n) {
      DrawnNext(start, length, k, n);
    }
  }

  /** Seeds the generator with the column number, draws, and seeds it again with that and the hash. */
  method SeedFor(gen: Generator, attno: nat, hash: int)
    requires attno < 32 && UInt32(hash)
    modifies gen
    ensures gen.next == StartState(attno, hash)
  {
    gen.MySrand(attno);
    ColumnSeedGood(attno);
    var r := gen.MyRand();
    assert r == ColumnDraw(attno);
    gen.MySrand(Xor32(hash, r));
  }

  method SetBits(gen: Generator, sign: array<Word>, nbits: nat, ghost start: int)
    requires sign.Length > 0 && Good(gen.next) && gen.next == start
    modifies gen, sign
    ensures Gained(start, sign.Length, nbits, old(sign[..]), sign[..])
  {
    for j := 0 to nbits
      invariant gen.next == StateAfter(start, j) && Good(gen.next)
      invariant Gained(start, sign.Length, j, old(sign[..]), sign[..])
    {
      ghost var before := sign[..];
      StaysGood(start, j + 1);
      var draw := gen.MyRand();
      var nBit := draw % (sign.Length * WORD_BITS);
      SetBit(sign, nBit);
      GainedNext(start, sign.Length, j, old(sign[..]), before, sign[..]);
    }
  }

  /** signValue: both seeds are set anew, so nothing is left of what the generator did before. */
  method SignValue(gen: Generator, o: Options, sign: array<Word>, attno: nat, hash: int)
    requires ValidOptions(o) && attno < |o.bitSize| && sign.Length == o.bloomLength
    requires UInt32(hash) && Good(StartState(attno, hash))
    modifies gen, sign
    ensures forall n :: HasBit(sign[..], n) <==> old(HasBit(sign[..], n)) || ValueBit(o, attno, hash, n)
  {
    SeedFor(gen, attno, hash);
    SetBits(gen, sign, o.bitSize[attno], StartState(attno, hash));
  }

  // Rows

  /** The hashes of a row's values, null values having none. */
  type Row = seq<Option<int>>

  /** The row has a value for every column, and all of them can be signed. */
  ghost predicate Signable(o: Options, row: Row) {
    && |row| == |o.bitSize|
    && forall c :: 0 <= c < |row| && row[c].Some? ==> ValueSignable(o, c, row[c].value)
  }

  ghost predicate ValueSignable(o: Options, attno: int, hash: int) {
    0 <= attno < |o.bitSize| <= 32 && UInt32(hash) && Good(StartState(attno, hash))
  }

  ghost predicate ColumnBit(o: Options, row: Row, c: int, n: int)
    requires ValidOptions(o) && Signable(o, row)
  {
    0 <= c < |row| && row[c].Some? && ValueSignable(o, c, row[c].value) && ValueBit(o, c, row[c].value, n)
  }

  /** One of the first `k` columns puts bit `n` into the row's signature. */
  ghost predicate RowBit(o: Options, row: Row, k: int, n: int)
    requires ValidOptions(o) && Signable(o, row)
  {
    exists c :: c < k && ColumnBit(o, row, c, n)
  }

  ghost predicate SignedRow(o: Options, row: Row, k: int, sign: seq<Word>)
    requires ValidOptions(o) && Signable(o, row)
  {
    |sign| == o.bloomLength && forall n :: HasBit(sign, n) <==> RowBit(o, row, k, n)
  }

  lemma RowBitNext(o: Options, row: Row, k: int, n: int)
    requires ValidOptions(o) && Signable(o, row) && 0 <= k < |row|
    ensures RowBit(o, row, k + 1, n) <==> RowBit(o, row, k, n) || ColumnBit(o, row, k, n)
  {
    if RowBit(o, row, k, n) {
      var c :| c < k && ColumnBit(o, row, c, n);
      assert c < k + 1 && ColumnBit(o, row, c, n);
    }
  }

  /** BloomFormTuple: null values leave no bit. */
  method FormTuple(gen: Generator, o: Options, row: Row) returns (sign: seq<Word>)
    requires ValidOptions(o) && Signable(o, row)
    modifies gen
    ensures SignedRow(o, row, |row|, sign)
  {
    var res := new Word[o.bloomLength](_ => {});
    for i := 0 to |row|
      invariant SignedRow(o, row, i, res[..])
    {
      SignColumn(gen, o, row, i, res);
    }
    sign := res[..];
  }

  lemma SignedRowNext(o: Options, row: Row, i: nat, before: seq<Word>, after: seq<Word>)
    requires ValidOptions(o) && Signable(o, row) && i < |row| && SignedRow(o, row, i, before) && |after| == |before|
    requires forall n :: HasBit(after, n) <==> HasBit(before, n) || ColumnBit(o, row, i, n)
    ensures SignedRow(o, row, i + 1, after)
  {
    forall n ensures HasBit(after, n) <==> RowBit(o, row, i + 1, n) {
      RowBitNext(o, row, i, n);
    }
  }

  lemma ColumnBitIs(o: Options, row: Row, i: nat, n: int)
    requires ValidOptions(o) && Signable(o, row) && i < |row|
    ensures row[i].None? ==> !ColumnBit(o, row, i, n)
    ensures row[i].Some? ==> ValueSignable(o, i, row[i].value) && (ColumnBit(o, row, i, n) <==> ValueBit(o, i, row[i].value, n))
  {
  }

  method SignColumn(gen: Generator, o: Options, row: Row, i: nat, res: array<Word>)
    requires ValidOptions(o) && Signable(o, row) && i < |row| && SignedRow(o, row, i, res[..])
    modifies gen, res
    ensures SignedRow(o, row, i + 1, res[..])
  {
    ghost var before := res[..];
    if row[i].Some? {
      ColumnBitIs(o, row, i, 0);
      SignValue(gen, o, res, i, row[i].value);
    }
    assert forall n :: HasBit(res[..], n) <==> HasBit(before, n) || ColumnBit(o, row, i, n) by {
      forall n ensures HasBit(res[..], n) <==> HasBit(before, n) || ColumnBit(o, row, i, n) { ColumnBitIs(o, row, i, n); }
    }
    SignedRowNext(o, row, i, before, res[..]);
  }

  // Scans

  /** A scan key: equality of a column with a value, given by its hash; or with null. */
  datatype ScanKey = ScanKey(attno: nat, arg: Option<int>)

  /** The row satisfies the key; operators are strict, so null satisfies nothing. */
  ghost predicate Satisfies(row: Row, k: ScanKey) { k.attno < |row| && k.arg.Some? && row[k.attno] == k.arg }

  ghost predicate KeyOk(o: Options, k: ScanKey) { k.arg.Some? ==> ValueSignable(o, k.attno, k.arg.value) }

  ghost predicate KeyBit(o: Options, k: ScanKey, n: int)
    requires ValidOptions(o)
  {
    k.arg.Some? && ValueSignable(o, k.attno, k.arg.value) && ValueBit(o, k.attno, k.arg.value, n)
  }

  ghost predicate KeyBitAt(o: Options, keys: seq<ScanKey>, i: int, n: int)
    requires ValidOptions(o)
  {
    0 <= i < |keys| && KeyBit(o, keys[i], n)
  }

  /** One of the first `k` keys puts bit `n` into the scan's signature. */
  ghost predicate ScanBit(o: Options, keys: seq<ScanKey>, k: int, n: int)
    requires ValidOptions(o)
  {
    exists i :: i < k && KeyBitAt(o, keys, i, n)
  }

  lemma ScanBitNext(o: Options, keys: seq<ScanKey>, k: nat, n: int)
    requires ValidOptions(o) && k < |keys|
    ensures ScanBit(o, keys, k + 1, n) <==> ScanBit(o, keys, k, n) || KeyBitAt(o, keys, k, n)
  {
    if ScanBit(o, keys, k, n) {
      var i :| i < k && KeyBitAt(o, keys, i, n);
      assert i < k + 1 && KeyBitAt(o, keys, i, n);
    }
  }

  ghost predicate SignedScan(o: Options, keys: seq<ScanKey>, k: int, sign: seq<Word>)
    requires ValidOptions(o)
  {
    |sign| == o.bloomLength && forall n :: HasBit(sign, n) <==> ScanBit(o, keys, k, n)
  }

  /** The signature of a scan; none when some key is null, for then nothing can be found. */
  method ScanSign(gen: Generator, o: Options, keys: seq<ScanKey>) returns (sign: Option<seq<Word>>)
    requires ValidOptions(o) && forall i :: 0 <= i < |keys| ==> KeyOk(o, keys[i])
    modifies gen
    ensures sign.None? <==> exists i :: 0 <= i < |keys| && keys[i].arg.None?
    ensures sign.Some? ==> SignedScan(o, keys, |keys|, sign.value)
  {
    var res := new Word[o.bloomLength](_ => {});
    for i := 0 to |keys|
      invariant forall k :: 0 <= k < i ==> keys[k].arg.Some?
      invariant SignedScan(o, keys, i, res[..])
    {
      if keys[i].arg.None? {
        return None;
      }
      assert KeyOk(o, keys[i]);
      SignKey(gen, o, keys, i, res);
    }
    sign := Some(res[..]);
  }

  method SignKey(gen: Generator, o: Options, keys: seq<ScanKey>, i: nat, res: array<Word>)
    requires ValidOptions(o) && i < |keys| && keys[i].arg.Some? && ValueSignable(o, keys[i].attno, keys[i].arg.value)
    requires SignedScan(o, keys, i, res[..])
    modifies gen, res
    ensures SignedScan(o, keys, i + 1, res[..])
  {
    ghost var before := res[..];
    SignValue(gen, o, res, keys[i].attno, keys[i].arg.value);
    SignedScanNext(o, keys, i, keys[i].attno, keys[i].arg.value, before, res[..]);
  }

  lemma SignedScanNext(o: Options, keys: seq<ScanKey>, i: nat, attno: nat, hash: int, before: seq<Word>, after: seq<Word>)
    requires ValidOptions(o) && i < |keys| && keys[i] == ScanKey(attno, Some(hash)) && ValueSignable(o, attno, hash)
    requires SignedScan(o, keys, i, before) && |after| == |before|
    requires forall n :: HasBit(after, n) <==> HasBit(before, n) || ValueBit(o, attno, hash, n)
    ensures SignedScan(o, keys, i + 1, after)
  {
    forall n ensures HasBit(after, n) <==> ScanBit(o, keys, i + 1, n) {
      ScanBitNext(o, keys, i, n);
    }
  }

  /** Word by word: the row's signature covers the scan's. */
  method Covers(sign: seq<Word>, scan: seq<Word>) returns (res: bool)
    requires |sign| == |scan| && forall i :: 0 <= i < |scan| ==> forall b :: b in scan[i] ==> b < WORD_BITS
    ensures res <==> forall n :: HasBit(scan, n) ==> HasBit(sign, n)
  {
    for i := 0 to |scan|
      invariant forall k :: 0 <= k < i ==> scan[k] <= sign[k]
    {
      if sign[i] * scan[i] != scan[i] {
        var b :| b in scan[i] && b !in sign[i];
        assert HasBit(scan, WORD_BITS * i + b) && !HasBit(sign, WORD_BITS * i + b);
        return false;
      }
    }
    res := true;
  }

  /** A row that satisfies all keys of a scan has all bits of the scan, however often the generator was used. */
  lemma NoFalseNegatives(o: Options, row: Row, keys: seq<ScanKey>, n: int)
    requires ValidOptions(o) && Signable(o, row) && (forall i :: 0 <= i < |keys| ==> Satisfies(row, keys[i]))
    requires ScanBit(o, keys, |keys|, n)
    ensures RowBit(o, row, |row|, n)
  {
    var i :| i < |keys| && KeyBitAt(o, keys, i, n);
    assert Satisfies(row, keys[i]);
    assert ColumnBit(o, row, keys[i].attno, n);
  }
}
