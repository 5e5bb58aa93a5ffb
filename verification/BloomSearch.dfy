/** Searching a bloom index by keys: signatures and the concurrent index together. */
module BloomSearch {
  import opened BloomPages
  import opened BloomIndex
  import opened BloomIndexSafety
  import S = BloomSign

  /** The bits of the signature BloomFormTuple makes of a row. */
  ghost function RowBits(o: S.Options, row: S.Row): set<nat>
    requires S.ValidOptions(o) && S.Signable(o, row)
  {
    set n: nat | n < o.bloomLength * S.WORD_BITS && S.RowBit(o, row, |row|, n)
  }

  /** The bits of the signature a scan makes of its keys. */
  ghost function KeyBits(o: S.Options, keys: seq<S.ScanKey>): set<nat>
    requires S.ValidOptions(o)
  {
    set n: nat | n < o.bloomLength * S.WORD_BITS && S.ScanBit(o, keys, |keys|, n)
  }

  ghost predicate SatisfiesAll(row: S.Row, keys: seq<S.ScanKey>) {
    forall i :: 0 <= i < |keys| ==> S.Satisfies(row, keys[i])
  }

  lemma BitsCovered(o: S.Options, row: S.Row, keys: seq<S.ScanKey>)
    requires S.ValidOptions(o) && S.Signable(o, row) && SatisfiesAll(row, keys)
    ensures KeyBits(o, keys) <= RowBits(o, row)
  {
    forall n | n in KeyBits(o, keys) ensures n in RowBits(o, row) { S.NoFalseNegatives(o, row, keys, n); }
  }

  /**
   A finished scan by keys has found every row that satisfies all of them and was in the index when it
   started, whatever insertions and vacuums ran beside it, unless the row was vacuumed meanwhile.
   */
  lemma ScanFindsRows(o: S.Options, row: S.Row, keys: seq<S.ScanKey>, s: State, actions: seq<Action>, t: State, e: Tuple)
    requires S.ValidOptions(o) && S.Signable(o, row) && SatisfiesAll(row, keys)
    requires Inv(s) && s.scan.NoScan? && Run(Next(s, StartScan(KeyBits(o, keys))), actions, t)
    requires forall i :: 0 <= i < |actions| ==> !actions[i].StartScan?
    requires t.scan.Scanning? && t.scan.blk >= t.scan.npages
    requires e in s.inserted && e !in t.removed && e.bits == RowBits(o, row)
    ensures e in t.scan.found
  {
    BitsCovered(o, row, keys);
    ScanComplete(s, KeyBits(o, keys), actions, t, e);
  }
}
